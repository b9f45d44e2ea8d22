/** A config file as blocks, a key line together with its list items, and what the order of blocks means. */
module ConfigBlocks {
  import opened Wrappers
  import opened GoStrings
  import opened Config

  predicate Filler(raw: string)
  {
    Ignored(Trim(Space, raw))
  }

  predicate ItemLine(raw: string)
  {
    !Filler(raw) && ListItem(Trim(Space, raw))
  }

  predicate KeyLine(raw: string)
  {
    !Filler(raw) && !ListItem(Trim(Space, raw))
  }

  predicate NoKeyLines(lines: seq<string>)
  {
    forall i | 0 <= i < |lines| :: !KeyLine(lines[i])
  }

  /** A key line, then list items, comments and blank lines. */
  predicate IsBlock(block: seq<string>)
  {
    |block| > 0 && KeyLine(block[0]) && NoKeyLines(block[1..])
  }

  predicate AreBlocks(blocks: seq<seq<string>>)
  {
    forall i | 0 <= i < |blocks| :: IsBlock(blocks[i])
  }

  function Flatten(blocks: seq<seq<string>>): seq<string>
  {
    if blocks == [] then [] else Flatten(blocks[..|blocks| - 1]) + blocks[|blocks| - 1]
  }

  /** Every file is a preface without key lines followed by blocks. */
  lemma {:induction false} EveryFileIsBlocks(lines: seq<string>) returns (preface: seq<string>, blocks: seq<seq<string>>)
    ensures lines == preface + Flatten(blocks) && NoKeyLines(preface) && AreBlocks(blocks)
  {
    preface, blocks := [], [];
    if lines != [] {
      var n := |lines| - 1;
      preface, blocks := EveryFileIsBlocks(lines[..n]);
      var last := lines[n];
      assert lines == lines[..n] + [last];
      if KeyLine(last) {
        assert (blocks + [[last]])[..|blocks|] == blocks;
        blocks := blocks + [[last]];
      } else if blocks == [] {
        preface := preface + [last];
      } else {
        var k := |blocks| - 1;
        var longer := blocks[k] + [last];
        assert longer[1..] == blocks[k][1..] + [last];
        assert blocks[k := longer][..k] == blocks[..k];
        assert Flatten(blocks[k := longer]) == Flatten(blocks) + [last];
        blocks := blocks[k := longer];
      }
    }
  }

  // ---------------------------------------------------------------- what one block says

  /** The values of the list items, in order. */
  function ItemValues(lines: seq<string>): seq<string>
  {
    if lines == [] then []
    else
      var last := lines[|lines| - 1];
      ItemValues(lines[..|lines| - 1]) + if ItemLine(last) then [ItemValue(Trim(Space, last))] else []
  }

  datatype Setting = Setting(key: string, field: Field, value: Value)

  /** The assignment that a block makes, wherever it stands; None if it does not parse. */
  function BlockSetting(ps: Parsers, block: seq<string>): Option<Setting>
    requires IsBlock(block)
  {
    var items := ItemValues(block[1..]);
    match SplitConfigLine(Trim(Space, block[0]))
    case Err(_) => None
    case Ok((key, value)) =>
      if FieldOf(key) == None then None
      else
        var field := FieldOf(key).value;
        if ReadValue(ps, field, value) == None then None
        else if items == [] then Some(Setting(key, field, ReadValue(ps, field, value).value))
        else if ListKey(key) && value == "" && "" !in items then Some(Setting(key, field, Names(items)))
        else None
  }

  /** Line numbers only label failures. */
  lemma NumbersAreLabels(ps: Parsers, st: State, raw: string, m: nat, n: nat)
    ensures ReadLine(ps, st, raw, m).Ok? <==> ReadLine(ps, st, raw, n).Ok?
    ensures ReadLine(ps, st, raw, m).Ok? ==> ReadLine(ps, st, raw, m) == ReadLine(ps, st, raw, n)
  {
    hide AppendConfigListItem;
    hide SplitConfigLine;
    hide ApplyConfigField;
    hide Trim;
  }

  /** A failed beginning fails the file; otherwise the rest is read from where the beginning left off. */
  lemma {:induction false} ReadAppend(ps: Parsers, st: State, a: seq<string>, b: seq<string>)
    ensures ReadLines(ps, st, a).Err? ==> ReadLines(ps, st, a + b).Err?
    ensures ReadLines(ps, st, a).Ok? ==>
              var whole, rest := ReadLines(ps, st, a + b), ReadLines(ps, ReadLines(ps, st, a).value, b);
              (whole.Ok? <==> rest.Ok?) && (whole.Ok? ==> whole.value == rest.value)
  {
    hide ReadLine;
    if b == [] {
      assert a + b == a;
    } else {
      var n := |b| - 1;
      assert (a + b)[..|a + b| - 1] == a + b[..n];
      ReadAppend(ps, st, a, b[..n]);
      var before := ReadLines(ps, st, a + b[..n]);
      if before.Ok? {
        NumbersAreLabels(ps, before.value, b[n], |a + b|, |b|);
      }
    }
  }

  /** The state with these names added to the list that a key names. */
  function Extended(st: State, key: string, items: seq<string>): State
    requires FieldOf(key).Some?
  {
    var field := FieldOf(key).value;
    st.(cfg := st.cfg[field := Names(NamesIn(st.cfg, field) + items)])
  }

  function WithItems(st: State, items: seq<string>): State
    requires items != [] ==> FieldOf(st.pending).Some?
  {
    if items == [] then st else Extended(st, st.pending, items)
  }

  lemma ExtendTwice(st: State, key: string, a: seq<string>, b: seq<string>)
    requires FieldOf(key).Some?
    ensures Extended(Extended(st, key, a), key, b) == Extended(st, key, a + b)
  {
    hide FieldOf;
    var field := FieldOf(key).value;
    assert NamesIn(st.cfg, field) + a + b == NamesIn(st.cfg, field) + (a + b);
  }

  lemma ListKeysHaveFields(key: string)
    requires ListKey(key)
    ensures FieldOf(key) in {Some(ServiceAllowlist), Some(AgentServiceAllowlist)}
  {
  }

  /** List items are accepted only below an empty list field, and extend it. */
  lemma {:induction false} ItemsRead(ps: Parsers, st: State, lines: seq<string>)
    requires NoKeyLines(lines) && (st.pending != "" ==> ListKey(st.pending))
    ensures st.pending != "" ==> FieldOf(st.pending).Some?
    ensures ReadLines(ps, st, lines).Ok? <==> ItemValues(lines) == [] || (st.pending != "" && "" !in ItemValues(lines))
    ensures ReadLines(ps, st, lines).Ok? ==>
              ReadLines(ps, st, lines).value == WithItems(st, ItemValues(lines))
  {
    hide Trim;
    hide ItemValue;
    hide ReadLine;
    hide ItemLine;
    hide KeyLine;
    if st.pending != "" {
      ListKeysHaveFields(st.pending);
    }
    hide FieldOf;
    hide ListKey;
    if lines != [] {
      var n := |lines| - 1;
      ItemsRead(ps, st, lines[..n]);
      if ReadLines(ps, st, lines[..n]).Ok? {
        OneItemReads(ps, ReadLines(ps, st, lines[..n]).value, lines[n], n + 1);
        if ItemLine(lines[n]) && st.pending != "" {
          var value := ItemValue(Trim(Space, lines[n]));
          assert ItemValues(lines) == ItemValues(lines[..n]) + [value];
          ExtendTwice(st, st.pending, ItemValues(lines[..n]), [value]);
          assert ItemValues(lines[..n]) == [] ==> ItemValues(lines) == [value];
        } else if !ItemLine(lines[n]) {
          assert ItemValues(lines) == ItemValues(lines[..n]);
        }
      }
    }
  }

  lemma OneItemReads(ps: Parsers, st: State, raw: string, number: nat)
    requires !KeyLine(raw) && (st.pending != "" ==> ListKey(st.pending))
    ensures st.pending != "" ==> FieldOf(st.pending).Some?
    ensures !ItemLine(raw) ==> ReadLine(ps, st, raw, number) == Ok(st)
    ensures ItemLine(raw) ==>
              var value := ItemValue(Trim(Space, raw));
              && (ReadLine(ps, st, raw, number).Ok? <==> st.pending != "" && value != "")
              && (st.pending != "" && value != "" ==> ReadLine(ps, st, raw, number) == Ok(Extended(st, st.pending, [value])))
  {
    hide Trim;
    hide ItemValue;
    if st.pending != "" {
      ListKeysHaveFields(st.pending);
    }
    hide FieldOf;
  }

  lemma OneLineReads(ps: Parsers, st: State, raw: string)
    ensures ReadLines(ps, st, [raw]) == ReadLine(ps, st, raw, 1)
  {
    assert [raw][..0] == [];
  }

  /** A block has the same effect wherever it stands: it assigns one field and marks one key. */
  lemma BlockReads(ps: Parsers, st: State, block: seq<string>)
    requires IsBlock(block)
    ensures var read, setting := ReadLines(ps, st, block), BlockSetting(ps, block);
            && (read.Ok? <==> setting.Some? && setting.value.key !in st.seen)
            && (read.Ok? ==> read.value.cfg == st.cfg[setting.value.field := setting.value.value]
                             && read.value.seen == st.seen + {setting.value.key})
  {
    hide ReadLine;
    hide Trim;
    hide SplitConfigLine;
    hide FieldOf;
    hide ReadValue;
    hide ItemValues;
    var head, items := block[..1], block[1..];
    assert block == head + items && head == [block[0]];
    var read := ReadLines(ps, st, head);
    OneLineReads(ps, st, block[0]);
    hide ReadLines;
    ReadAppend(ps, st, head, items);
    HeadReads(ps, st, block[0]);
    if read.Ok? {
      hide ListKey;
      ItemsRead(ps, read.value, items);
      hide FieldOf;
      assert [] + ItemValues(items) == ItemValues(items);
    }
  }

  lemma HeadReads(ps: Parsers, st: State, raw: string)
    requires KeyLine(raw)
    ensures var read, parts := ReadLine(ps, st, raw, 1), SplitConfigLine(Trim(Space, raw));
            if parts.Err? then read.Err?
            else
              var (key, value) := parts.value;
              && (read.Ok? <==> key !in st.seen && FieldOf(key).Some? && ReadValue(ps, FieldOf(key).value, value).Some?)
              && (read.Ok? ==> read.value == State(st.cfg[FieldOf(key).value := ReadValue(ps, FieldOf(key).value, value).value],
                                                   st.seen + {key}, if ListKey(key) && value == "" then key else ""))
              && (read.Ok? && read.value.pending != "" ==> NamesIn(read.value.cfg, FieldOf(key).value) == [])
  {
    hide Trim;
    hide SplitConfigLine;
    if SplitConfigLine(Trim(Space, raw)).Ok? {
      var (key, value) := SplitConfigLine(Trim(Space, raw)).value;
      if ListKey(key) && value == "" {
        EmptyListIsEmpty(ps, key);
      }
      hide FieldOf;
      hide ReadValue;
    }
  }

  lemma EmptyListIsEmpty(ps: Parsers, key: string)
    requires ListKey(key)
    ensures FieldOf(key).Some? && ReadValue(ps, FieldOf(key).value, "") == Some(Names([]))
  {
    assert Services("") == [];
  }

  // ---------------------------------------------------------------- a whole file

  predicate AllRead(ps: Parsers, blocks: seq<seq<string>>)
    requires AreBlocks(blocks)
  {
    forall i | 0 <= i < |blocks| :: BlockSetting(ps, blocks[i]).Some?
  }

  function Settings(ps: Parsers, blocks: seq<seq<string>>): seq<Setting>
    requires AreBlocks(blocks) && AllRead(ps, blocks)
  {
    seq(|blocks|, i requires 0 <= i < |blocks| => BlockSetting(ps, blocks[i]).value)
  }

  predicate KeysDiffer(settings: seq<Setting>)
  {
    forall i, j | 0 <= i < j < |settings| :: settings[i].key != settings[j].key
  }

  /** All settings, applied in order. */
  function Assigned(settings: seq<Setting>, cfg: Config): Config
  {
    if settings == [] then cfg
    else
      var last := settings[|settings| - 1];
      Assigned(settings[..|settings| - 1], cfg)[last.field := last.value]
  }

  /**
   A file is accepted exactly when no list item stands before the first key, every block parses on
   its own and no key occurs twice; its meaning is the blocks' settings in order.
   */
  lemma ParsedByBlocks(ps: Parsers, preface: seq<string>, blocks: seq<seq<string>>, cfg: Config)
    requires NoKeyLines(preface) && AreBlocks(blocks)
    ensures var parsed := Parsed(ps, preface + Flatten(blocks), cfg);
            && (parsed.Ok? <==> ItemValues(preface) == [] && AllRead(ps, blocks) && KeysDiffer(Settings(ps, blocks)))
            && (parsed.Ok? ==> parsed.value == Assigned(Settings(ps, blocks), cfg))
  {
    BlocksRead(ps, preface, blocks, State(cfg, {}, ""));
  }

  lemma {:induction false} BlocksRead(ps: Parsers, preface: seq<string>, blocks: seq<seq<string>>, st: State)
    requires NoKeyLines(preface) && AreBlocks(blocks) && st.pending == "" && st.seen == {}
    ensures var read := ReadLines(ps, st, preface + Flatten(blocks));
            && (read.Ok? <==> ItemValues(preface) == [] && AllRead(ps, blocks) && KeysDiffer(Settings(ps, blocks)))
            && (read.Ok? ==> read.value.cfg == Assigned(Settings(ps, blocks), st.cfg))
            && (read.Ok? ==> forall key :: key in read.value.seen <==>
                  exists i :: 0 <= i < |blocks| && Settings(ps, blocks)[i].key == key)
  {
    hide ReadLine;
    hide BlockSetting;
    hide ItemValues;
    hide IsBlock;
    if blocks == [] {
      assert preface + Flatten(blocks) == preface;
      ItemsRead(ps, st, preface);
    } else {
      var n := |blocks| - 1;
      var before, last := blocks[..n], blocks[n];
      BlocksRead(ps, preface, before, st);
      assert preface + Flatten(blocks) == preface + Flatten(before) + last;
      hide Flatten;
      hide ReadLines;
      assert AllRead(ps, blocks) <==> AllRead(ps, before) && BlockSetting(ps, last).Some?;
      ReadAppend(ps, st, preface + Flatten(before), last);
      var read := ReadLines(ps, st, preface + Flatten(before));
      if read.Ok? {
        BlockReads(ps, read.value, last);
        if AllRead(ps, blocks) {
          assert Settings(ps, blocks) == Settings(ps, before) + [BlockSetting(ps, last).value];
          OneMoreKey(Settings(ps, before), BlockSetting(ps, last).value);
        }
      } else if AllRead(ps, blocks) {
        assert Settings(ps, blocks) == Settings(ps, before) + [BlockSetting(ps, last).value];
        OneMoreKey(Settings(ps, before), BlockSetting(ps, last).value);
      }
    }
  }

  lemma OneMoreKey(before: seq<Setting>, last: Setting)
    ensures KeysDiffer(before + [last]) <==> KeysDiffer(before) && forall i | 0 <= i < |before| :: before[i].key != last.key
    ensures forall cfg :: Assigned(before + [last], cfg) == Assigned(before, cfg)[last.field := last.value]
  {
    var all := before + [last];
    assert all[..|before|] == before;
    if KeysDiffer(all) {
      forall i, j | 0 <= i < j < |before| ensures before[i].key != before[j].key {
        assert all[i].key != all[j].key;
      }
      forall i | 0 <= i < |before| ensures before[i].key != last.key {
        assert all[i].key != all[|before|].key;
      }
    }
  }

  /** The key of a setting names its field. */
  lemma SettingNamesField(ps: Parsers, block: seq<string>)
    requires IsBlock(block) && BlockSetting(ps, block).Some?
    ensures FieldOf(BlockSetting(ps, block).value.key) == Some(BlockSetting(ps, block).value.field)
  {
    hide FieldOf;
    hide ReadValue;
    hide SplitConfigLine;
    hide ItemValues;
    hide Trim;
  }
}
