/** What the order of a config file's blocks means. */
module ConfigOrder {
  import opened Wrappers
  import opened Config
  import opened ConfigBlocks

  /** The last setting of a field decides it; a field without a setting keeps its value. */
  lemma {:induction false} LastSettingWins(settings: seq<Setting>, cfg: Config, field: Field)
    ensures (forall i | 0 <= i < |settings| :: settings[i].field != field) ==>
              SameAt(Assigned(settings, cfg), cfg, field)
    ensures forall i | 0 <= i < |settings| && settings[i].field == field
                       && (forall j | i < j < |settings| :: settings[j].field != field) ::
              field in Assigned(settings, cfg) && Assigned(settings, cfg)[field] == settings[i].value
  {
    if settings != [] {
      LastSettingWins(settings[..|settings| - 1], cfg, field);
    }
  }

  predicate SameAt(a: Config, b: Config, field: Field)
  {
    (field in a <==> field in b) && (field in a ==> a[field] == b[field])
  }

  lemma SameEverywhere(a: Config, b: Config)
    requires forall field :: SameAt(a, b, field)
    ensures a == b
  {
    assert forall field :: SameAt(a, b, field) ==> (field in a <==> field in b);
  }

  /** What the last setting of the idle timeout, under either of its names, sets it to. */
  function IdleSetting(settings: seq<Setting>): Option<Value>
  {
    if settings == [] then None
    else
      var last := settings[|settings| - 1];
      if IdleKey(last.key) then Some(last.value) else IdleSetting(settings[..|settings| - 1])
  }

  predicate BothIdleKeys(settings: seq<Setting>)
  {
    exists i, j :: 0 <= i < |settings| && 0 <= j < |settings| && settings[i].key != settings[j].key
                   && IdleKey(settings[i].key) && IdleKey(settings[j].key)
  }

  predicate KeysNameFields(settings: seq<Setting>)
  {
    forall i | 0 <= i < |settings| :: FieldOf(settings[i].key) == Some(settings[i].field)
  }

  lemma {:induction false} IdleIsLast(settings: seq<Setting>) returns (i: int)
    requires KeysNameFields(settings)
    ensures -1 <= i < |settings|
    ensures forall j | i < j < |settings| :: settings[j].field != SessionIdleTTL
    ensures if i == -1 then IdleSetting(settings) == None
            else settings[i].field == SessionIdleTTL && IdleSetting(settings) == Some(settings[i].value)
  {
    hide FieldOf;
    hide IdleKey;
    i := -1;
    if settings != [] {
      var n := |settings| - 1;
      IdleField(settings[n].key);
      if IdleKey(settings[n].key) {
        i := n;
      } else {
        i := IdleIsLast(settings[..n]);
      }
    }
  }

  // ---------------------------------------------------------------- reordering

  lemma TwoPositions<T>(s: seq<T>, i: nat, j: nat)
    requires i < j < |s| && s[i] == s[j]
    ensures multiset(s)[s[i]] >= 2
  {
    assert s == s[..j] + [s[j]] + s[j + 1..];
    assert s[i] in s[..j];
    assert multiset(s) == multiset(s[..j]) + multiset{s[j]} + multiset(s[j + 1..]);
  }

  lemma TwicePresent<T>(s: seq<T>, x: T) returns (i: nat, j: nat)
    requires multiset(s)[x] >= 2
    ensures i < j < |s| && s[i] == s[j] == x
  {
    assert x in multiset(s);
    j :| 0 <= j < |s| && s[j] == x;
    assert s == s[..j] + [s[j]] + s[j + 1..];
    assert multiset(s) == multiset(s[..j]) + multiset{x} + multiset(s[j + 1..]);
    if x in s[..j] {
      i :| 0 <= i < j && s[..j][i] == x;
    } else {
      assert multiset(s[..j])[x] == 0;
      assert x in multiset(s[j + 1..]);
      var k :| 0 <= k < |s[j + 1..]| && s[j + 1..][k] == x;
      i, j := j, j + 1 + k;
    }
  }

  lemma SameElements<T>(a: seq<T>, b: seq<T>, i: nat) returns (j: nat)
    requires multiset(a) == multiset(b) && i < |a|
    ensures j < |b| && b[j] == a[i]
  {
    assert a[i] in multiset(a);
    j :| 0 <= j < |b| && b[j] == a[i];
  }

  /** The same blocks in another order parse alike, and make the same settings in that order. */
  lemma ReorderedBlocksRead(ps: Parsers, a: seq<seq<string>>, b: seq<seq<string>>)
    requires AreBlocks(a) && AreBlocks(b) && multiset(a) == multiset(b) && AllRead(ps, a)
    ensures AllRead(ps, b) && multiset(Settings(ps, a)) == multiset(Settings(ps, b))
  {
    hide IsBlock;
    hide BlockSetting;
    forall j | 0 <= j < |b| ensures BlockSetting(ps, b[j]).Some? {
      var i := SameElements(b, a, j);
    }
    SettingsReorder(ps, a, b);
  }

  lemma {:induction false} SettingsReorder(ps: Parsers, a: seq<seq<string>>, b: seq<seq<string>>)
    requires AreBlocks(a) && AreBlocks(b) && multiset(a) == multiset(b) && AllRead(ps, a) && AllRead(ps, b)
    ensures multiset(Settings(ps, a)) == multiset(Settings(ps, b))
    decreases |a|
  {
    hide IsBlock;
    hide BlockSetting;
    if a == [] {
      assert |multiset(b)| == 0;
    } else {
      var n := |a| - 1;
      var k := SameElements(a, b, n);
      TakeOut(a, n);
      TakeOut(b, k);
      SettingsWithout(ps, a, n);
      SettingsWithout(ps, b, k);
      TakeOut(Settings(ps, a), n);
      TakeOut(Settings(ps, b), k);
      SettingsReorder(ps, Without(a, n), Without(b, k));
      hide Without;
    }
  }

  function Without<T>(s: seq<T>, k: nat): seq<T>
    requires k < |s|
  {
    s[..k] + s[k + 1..]
  }

  lemma TakeOut<T>(s: seq<T>, k: nat)
    requires k < |s|
    ensures multiset(s) == multiset(Without(s, k)) + multiset{s[k]}
    ensures multiset(Without(s, k)) == multiset(s) - multiset{s[k]}
  {
    assert s == s[..k] + [s[k]] + s[k + 1..];
  }

  lemma SettingsWithout(ps: Parsers, blocks: seq<seq<string>>, k: nat)
    requires AreBlocks(blocks) && AllRead(ps, blocks) && k < |blocks|
    ensures AreBlocks(Without(blocks, k)) && AllRead(ps, Without(blocks, k))
    ensures Settings(ps, Without(blocks, k)) == Without(Settings(ps, blocks), k)
  {
    hide IsBlock;
    hide BlockSetting;
  }

  lemma ReorderedKeysDiffer(a: seq<Setting>, b: seq<Setting>)
    requires multiset(a) == multiset(b) && KeysDiffer(a)
    ensures KeysDiffer(b)
  {
    forall i, j | 0 <= i < j < |b| ensures b[i].key != b[j].key {
      if b[i] == b[j] {
        TwoPositions(b, i, j);
        var p, q := TwicePresent(a, b[i]);
      } else {
        var p := SameElements(b, a, i);
        var q := SameElements(b, a, j);
        assert p < q || q < p;
      }
    }
  }

  /** Among settings with different keys, a field other than the idle timeout is set at most once. */
  lemma OnlyIdleTwice(settings: seq<Setting>, i: nat, j: nat)
    requires KeysNameFields(settings) && KeysDiffer(settings)
    requires i < |settings| && j < |settings| && settings[i].field == settings[j].field != SessionIdleTTL
    ensures i == j
  {
    OneKeyPerField(settings[i].key, settings[j].key);
    IdleField(settings[i].key);
    hide FieldOf;
    hide IdleKey;
    assert settings[i].key == settings[j].key;
  }

  lemma SameElsewhere(a: seq<Setting>, b: seq<Setting>, cfg: Config, field: Field)
    requires multiset(a) == multiset(b) && KeysDiffer(a) && KeysDiffer(b)
    requires KeysNameFields(a) && KeysNameFields(b) && field != SessionIdleTTL
    ensures SameAt(Assigned(a, cfg), Assigned(b, cfg), field)
  {
    LastSettingWins(a, cfg, field);
    LastSettingWins(b, cfg, field);
    forall i, j | 0 <= i < |a| && 0 <= j < |a| && a[i].field == a[j].field == field ensures i == j {
      OnlyIdleTwice(a, i, j);
    }
    forall i, j | 0 <= i < |b| && 0 <= j < |b| && b[i].field == b[j].field == field ensures i == j {
      OnlyIdleTwice(b, i, j);
    }
    hide FieldOf;
    hide Assigned;
    if i :| 0 <= i < |a| && a[i].field == field {
      var j := SameElements(a, b, i);
    } else {
      forall j | 0 <= j < |b| ensures b[j].field != field {
        var i := SameElements(b, a, j);
      }
    }
  }

  lemma SameIdleIff(a: seq<Setting>, b: seq<Setting>, cfg: Config)
    requires multiset(a) == multiset(b) && KeysNameFields(a) && KeysNameFields(b)
    ensures SameAt(Assigned(a, cfg), Assigned(b, cfg), SessionIdleTTL) <==> IdleSetting(a) == IdleSetting(b)
  {
    LastSettingWins(a, cfg, SessionIdleTTL);
    LastSettingWins(b, cfg, SessionIdleTTL);
    var i := IdleIsLast(a);
    var j := IdleIsLast(b);
    hide IdleSetting;
    hide Assigned;
    hide FieldOf;
    if i >= 0 {
      var k := SameElements(a, b, i);
    }
    if j >= 0 {
      var k := SameElements(b, a, j);
    }
    assert i >= 0 <==> j >= 0;
  }

  lemma OneIdleKeyAgrees(a: seq<Setting>, b: seq<Setting>)
    requires multiset(a) == multiset(b) && KeysNameFields(a) && KeysNameFields(b)
    requires KeysDiffer(a) && !BothIdleKeys(a)
    ensures IdleSetting(a) == IdleSetting(b)
  {
    var i := IdleIsLast(a);
    var j := IdleIsLast(b);
    if i >= 0 {
      var k := SameElements(a, b, i);
    }
    if j >= 0 {
      var k := SameElements(b, a, j);
      assert i >= 0;
      IdleField(a[k].key);
      IdleField(a[i].key);
      hide FieldOf;
      hide IdleKey;
      assert a[k].key == a[i].key;
      assert i == k;
    }
  }

  /**
   Reordering the blocks of a file never changes whether it is accepted. It changes the configuration
   only if the file sets the idle timeout twice, under its two names, and then exactly when
   another value comes last.
   */
  lemma OrderMattersOnlyForIdle(ps: Parsers, preface: seq<string>, a: seq<seq<string>>, b: seq<seq<string>>, cfg: Config)
    requires NoKeyLines(preface) && AreBlocks(a) && AreBlocks(b) && multiset(a) == multiset(b)
    ensures Parsed(ps, preface + Flatten(a), cfg).Ok? <==> Parsed(ps, preface + Flatten(b), cfg).Ok?
    ensures Parsed(ps, preface + Flatten(a), cfg).Ok? ==>
              && AllRead(ps, a) && AllRead(ps, b)
              && (Parsed(ps, preface + Flatten(a), cfg) == Parsed(ps, preface + Flatten(b), cfg)
                  <==> IdleSetting(Settings(ps, a)) == IdleSetting(Settings(ps, b)))
              && (!BothIdleKeys(Settings(ps, a)) ==> IdleSetting(Settings(ps, a)) == IdleSetting(Settings(ps, b)))
  {
    hide IsBlock;
    hide BlockSetting;
    hide Parsed;
    hide Flatten;
    ParsedByBlocks(ps, preface, a, cfg);
    ParsedByBlocks(ps, preface, b, cfg);
    if AllRead(ps, a) {
      ReorderedBlocksRead(ps, a, b);
    }
    if AllRead(ps, b) {
      ReorderedBlocksRead(ps, b, a);
      var sa, sb := Settings(ps, a), Settings(ps, b);
      if KeysDiffer(sa) {
        ReorderedKeysDiffer(sa, sb);
      }
      if KeysDiffer(sb) {
        ReorderedKeysDiffer(sb, sa);
        SettingsNameFields(ps, a);
        SettingsNameFields(ps, b);
        AssignedAgreeIff(sa, sb, cfg);
        if !BothIdleKeys(sa) {
          OneIdleKeyAgrees(sa, sb);
        }
      }
    }
  }

  lemma SettingsNameFields(ps: Parsers, blocks: seq<seq<string>>)
    requires AreBlocks(blocks) && AllRead(ps, blocks)
    ensures KeysNameFields(Settings(ps, blocks))
  {
    hide FieldOf;
    hide BlockSetting;
    hide IsBlock;
    forall i | 0 <= i < |blocks| ensures FieldOf(Settings(ps, blocks)[i].key) == Some(Settings(ps, blocks)[i].field) {
      SettingNamesField(ps, blocks[i]);
    }
  }

  lemma AssignedAgreeIff(a: seq<Setting>, b: seq<Setting>, cfg: Config)
    requires multiset(a) == multiset(b) && KeysDiffer(a) && KeysDiffer(b) && KeysNameFields(a) && KeysNameFields(b)
    ensures Assigned(a, cfg) == Assigned(b, cfg) <==> IdleSetting(a) == IdleSetting(b)
  {
    hide FieldOf;
    forall field | field != SessionIdleTTL ensures SameAt(Assigned(a, cfg), Assigned(b, cfg), field) {
      SameElsewhere(a, b, cfg, field);
    }
    SameIdleIff(a, b, cfg);
    hide Assigned;
    if IdleSetting(a) == IdleSetting(b) {
      SameEverywhere(Assigned(a, cfg), Assigned(b, cfg));
    }
  }

  /** When a file sets the idle timeout under both names, the later one counts. */
  lemma LaterIdleWins(ps: Parsers, preface: seq<string>, blocks: seq<seq<string>>, cfg: Config, i: nat, j: nat)
    requires NoKeyLines(preface) && AreBlocks(blocks) && Parsed(ps, preface + Flatten(blocks), cfg).Ok?
    requires i < j < |blocks|
    requires forall k | k == i || k == j ::
               BlockSetting(ps, blocks[k]).Some? && IdleKey(BlockSetting(ps, blocks[k]).value.key)
    ensures var parsed := Parsed(ps, preface + Flatten(blocks), cfg).value;
            SessionIdleTTL in parsed && parsed[SessionIdleTTL] == BlockSetting(ps, blocks[j]).value.value
  {
    hide IsBlock;
    hide BlockSetting;
    ParsedByBlocks(ps, preface, blocks, cfg);
    SettingsNameFields(ps, blocks);
    var settings := Settings(ps, blocks);
    IdleField(settings[i].key);
    IdleField(settings[j].key);
    hide FieldOf;
    hide Parsed;
    hide Flatten;
    forall k | j < k < |settings| ensures settings[k].field != SessionIdleTTL {
      IdleField(settings[k].key);
      assert settings[i].key != settings[j].key && settings[i].key != settings[k].key && settings[j].key != settings[k].key;
    }
    LastSettingWins(settings, cfg, SessionIdleTTL);
  }
}
