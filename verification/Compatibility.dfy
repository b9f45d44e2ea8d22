/** internal/db/compatibility.go: which migration histories are accepted. */
module Compatibility {
  import opened TextOrder

  datatype Migration = Migration(name: string, sql: string)

  datatype Record = Record(name: string, checksum: string)

  datatype Status = OK | MigrationRequired | FutureSchema | CorruptHistory

  /** The text that is hashed stands for its SHA-256; it is never empty. */
  function Checksum(m: Migration): (c: string)
    ensures c != ""
  {
    m.name + "\n" + m.sql
  }

  function Names(migrations: seq<Migration>): seq<string>
  {
    seq(|migrations|, i requires 0 <= i < |migrations| => migrations[i].name)
  }

  function AppliedNames(applied: seq<Record>): seq<string>
  {
    seq(|applied|, i requires 0 <= i < |applied| => applied[i].name)
  }

  /** The rows that these migrations leave behind. */
  function RecordsOf(migrations: seq<Migration>): seq<Record>
  {
    seq(|migrations|, i requires 0 <= i < |migrations| => Record(migrations[i].name, Checksum(migrations[i])))
  }

  /** The applied rows are exactly a checksummed beginning of the migrations. */
  predicate IsPrefixHistory(migrations: seq<Migration>, applied: seq<Record>)
  {
    |applied| <= |migrations| && applied == RecordsOf(migrations[..|applied|])
  }

  function CurrentApplied(applied: seq<Record>): string
  {
    if applied == [] then "" else applied[|applied| - 1].name
  }

  function CurrentSchemaVersion(migrations: seq<Migration>): string
  {
    if migrations == [] then "" else migrations[|migrations| - 1].name
  }

  // ---------------------------------------------------------------- the loops

  /** Later entries of the same name replace earlier ones. */
  function Known(migrations: seq<Migration>): map<string, string>
  {
    if migrations == [] then map[]
    else
      var last := migrations[|migrations| - 1];
      Known(migrations[..|migrations| - 1])[last.name := Checksum(last)]
  }

  method KnownMigrationChecksums(migrations: seq<Migration>) returns (known: map<string, string>)
    ensures known == Known(migrations)
  {
    known := map[];
    for i := 0 to |migrations|
      invariant known == Known(migrations[..i])
    {
      known := known[migrations[i].name := Checksum(migrations[i])];
      assert migrations[..i + 1][..i] == migrations[..i];
    }
    assert migrations[..|migrations|] == migrations;
  }

  predicate RecordFits(known: map<string, string>, record: Record)
  {
    record.name in known && known[record.name] == record.checksum
  }

  /** The reason names the first row that does not fit; it is empty exactly when every row fits. */
  method InvalidAppliedMigration(known: map<string, string>, applied: seq<Record>) returns (reason: string)
    ensures reason == "" <==> forall i | 0 <= i < |applied| :: RecordFits(known, applied[i])
    ensures reason != "" ==> exists i ::
              && 0 <= i < |applied| && !RecordFits(known, applied[i])
              && (forall k | 0 <= k < i :: RecordFits(known, applied[k]))
              && reason == (if applied[i].name in known then "checksum_mismatch_" else "unknown_migration_") + applied[i].name
  {
    for i := 0 to |applied|
      invariant forall k | 0 <= k < i :: RecordFits(known, applied[k])
    {
      if applied[i].name !in known {
        return "unknown_migration_" + applied[i].name;
      }
      if known[applied[i].name] != applied[i].checksum {
        return "checksum_mismatch_" + applied[i].name;
      }
    }
    reason := "";
  }

  /** No migration is applied after one that is not. */
  predicate Contiguous(migrations: seq<Migration>, applied: seq<Record>)
  {
    forall i, j | 0 <= i < j < |migrations| && migrations[j].name in AppliedNames(applied) ::
      migrations[i].name in AppliedNames(applied)
  }

  method NonContiguousHistory(migrations: seq<Migration>, applied: seq<Record>) returns (reason: string)
    ensures reason in {"", "non_contiguous_migration_history"}
    ensures reason == "" <==> Contiguous(migrations, applied)
  {
    var appliedNames: set<string> := {};
    for i := 0 to |applied|
      invariant forall name :: name in appliedNames <==> name in AppliedNames(applied)[..i]
    {
      appliedNames := appliedNames + {applied[i].name};
      assert AppliedNames(applied)[..i + 1] == AppliedNames(applied)[..i] + [applied[i].name];
    }
    var seenPending := false;
    for i := 0 to |migrations|
      invariant seenPending <==> exists k :: 0 <= k < i && migrations[k].name !in AppliedNames(applied)
      invariant forall k, j | 0 <= k < j < i && migrations[j].name in AppliedNames(applied) ::
                  migrations[k].name in AppliedNames(applied)
    {
      if migrations[i].name !in appliedNames {
        seenPending := true;
      } else if seenPending {
        return "non_contiguous_migration_history";
      }
    }
    reason := "";
  }

  // ---------------------------------------------------------------- what the loops decide together

  lemma {:induction false} KnownLooksUp(migrations: seq<Migration>, name: string)
    requires StrictlyIncreasing(Names(migrations))
    ensures name in Known(migrations) <==> name in Names(migrations)
    ensures forall i | 0 <= i < |migrations| && migrations[i].name == name ::
              name in Known(migrations) && Known(migrations)[name] == Checksum(migrations[i])
  {
    if migrations != [] {
      var n := |migrations| - 1;
      var rest := migrations[..n];
      assert Names(migrations) == Names(rest) + [migrations[n].name];
      assert StrictlyIncreasing(Names(rest)) by {
        assert forall i | 0 <= i < n :: Names(rest)[i] == Names(migrations)[i];
      }
      KnownLooksUp(rest, name);
      forall i | 0 <= i < n ensures migrations[i].name != migrations[n].name {
        assert Less(Names(migrations)[i], Names(migrations)[n]);
        Irreflexive(migrations[n].name);
      }
      assert forall i | 0 <= i < n :: rest[i] == migrations[i];
    }
  }

  /**
   For increasing migration names and rows sorted by name, all rows fit and the history is contiguous
   exactly when the rows are a checksummed beginning of the migrations.
   */
  lemma AcceptedIffPrefix(migrations: seq<Migration>, applied: seq<Record>)
    requires StrictlyIncreasing(Names(migrations)) && StrictlyIncreasing(AppliedNames(applied))
    ensures (forall i | 0 <= i < |applied| :: RecordFits(Known(migrations), applied[i])) && Contiguous(migrations, applied)
       <==> IsPrefixHistory(migrations, applied)
  {
    if IsPrefixHistory(migrations, applied) {
      PrefixIsAccepted(migrations, applied);
    }
    if (forall i | 0 <= i < |applied| :: RecordFits(Known(migrations), applied[i])) && Contiguous(migrations, applied) {
      AcceptedIsPrefix(migrations, applied);
    }
  }

  lemma PrefixIsAccepted(migrations: seq<Migration>, applied: seq<Record>)
    requires StrictlyIncreasing(Names(migrations)) && IsPrefixHistory(migrations, applied)
    ensures forall i | 0 <= i < |applied| :: RecordFits(Known(migrations), applied[i])
    ensures Contiguous(migrations, applied)
  {
    forall i | 0 <= i < |applied| ensures RecordFits(Known(migrations), applied[i]) {
      KnownLooksUp(migrations, applied[i].name);
      assert applied[i] == RecordsOf(migrations[..|applied|])[i];
    }
    forall i, j | 0 <= i < j < |migrations| && migrations[j].name in AppliedNames(applied)
      ensures migrations[i].name in AppliedNames(applied)
    {
      var k :| 0 <= k < |applied| && applied[k].name == migrations[j].name;
      assert Names(migrations)[k] == Names(migrations)[j];
      UniqueNames(Names(migrations), k, j);
      assert AppliedNames(applied)[i] == migrations[i].name;
    }
  }

  lemma UniqueNames(names: seq<string>, i: nat, j: nat)
    requires StrictlyIncreasing(names) && i < |names| && j < |names| && names[i] == names[j]
    ensures i == j
  {
    Irreflexive(names[i]);
  }

  lemma AcceptedIsPrefix(migrations: seq<Migration>, applied: seq<Record>)
    requires StrictlyIncreasing(Names(migrations)) && StrictlyIncreasing(AppliedNames(applied))
    requires forall i | 0 <= i < |applied| :: RecordFits(Known(migrations), applied[i])
    requires Contiguous(migrations, applied)
    ensures IsPrefixHistory(migrations, applied)
  {
    var names := AppliedNames(applied);
    var k := AppliedCount(migrations, names);
    var prefix := Names(migrations)[..k];
    forall x | x in names ensures x in prefix {
      var i :| 0 <= i < |applied| && applied[i].name == x;
      assert RecordFits(Known(migrations), applied[i]);
      KnownLooksUp(migrations, x);
      var j :| 0 <= j < |migrations| && Names(migrations)[j] == x;
      assert migrations[j].name in names;
      assert j < k;
      assert prefix[j] == x;
    }
    forall x | x in prefix ensures x in names {
      var j :| 0 <= j < k && prefix[j] == x;
      assert migrations[j].name == x;
    }
    assert StrictlyIncreasing(prefix) by {
      assert forall i | 0 <= i < k :: prefix[i] == Names(migrations)[i];
    }
    IncreasingListsAgree(names, prefix);
    forall i | 0 <= i < |applied| ensures applied[i] == RecordsOf(migrations[..k])[i] {
      assert names[i] == prefix[i] == migrations[i].name;
      assert RecordFits(Known(migrations), applied[i]);
      KnownLooksUp(migrations, applied[i].name);
    }
  }

  /** The applied migrations of a contiguous history are the first k. */
  lemma {:induction false} AppliedCount(migrations: seq<Migration>, names: seq<string>) returns (k: nat)
    requires forall i, j | 0 <= i < j < |migrations| && migrations[j].name in names :: migrations[i].name in names
    ensures k <= |migrations|
    ensures forall j | 0 <= j < |migrations| :: migrations[j].name in names <==> j < k
  {
    k := 0;
    while k < |migrations| && migrations[k].name in names
      invariant k <= |migrations| && forall j | 0 <= j < k :: migrations[j].name in names
    {
      k := k + 1;
    }
  }

  /** The last applied name sorts after every known name. */
  predicate AfterEveryKnown(migrations: seq<Migration>, applied: seq<Record>)
  {
    Less(CurrentSchemaVersion(migrations), CurrentApplied(applied))
  }

  lemma AfterEveryKnownMeans(migrations: seq<Migration>, applied: seq<Record>)
    requires StrictlyIncreasing(Names(migrations))
    ensures AfterEveryKnown(migrations, applied) <==>
            && applied != [] && applied[|applied| - 1].name != ""
            && forall i | 0 <= i < |migrations| :: Less(migrations[i].name, applied[|applied| - 1].name)
  {
    if migrations != [] {
      var n := |migrations| - 1;
      forall i | 0 <= i < |migrations| && AfterEveryKnown(migrations, applied)
        ensures Less(migrations[i].name, CurrentApplied(applied))
      {
        if i < n {
          assert Less(Names(migrations)[i], Names(migrations)[n]);
          Transitive(migrations[i].name, migrations[n].name, CurrentApplied(applied));
        }
      }
    }
  }

  lemma FutureIsNoPrefix(migrations: seq<Migration>, applied: seq<Record>)
    requires StrictlyIncreasing(Names(migrations)) && AfterEveryKnown(migrations, applied)
    ensures applied != [] && !RecordFits(Known(migrations), applied[|applied| - 1])
    ensures !IsPrefixHistory(migrations, applied)
  {
    AfterEveryKnownMeans(migrations, applied);
    KnownLooksUp(migrations, CurrentApplied(applied));
    Irreflexive(CurrentApplied(applied));
    assert forall i | 0 <= i < |migrations| :: Names(migrations)[i] == migrations[i].name;
    if IsPrefixHistory(migrations, applied) {
      PrefixIsAccepted(migrations, applied);
    }
  }

  // ---------------------------------------------------------------- the report

  class CompatibilityReport {
    var currentSchema: string
    var targetSchema: string
    var appliedMigrations: int
    var pendingMigrations: int
    var status: Status
    var reason: string

    constructor (migrations: seq<Migration>, applied: seq<Record>)
      ensures currentSchema == CurrentApplied(applied) && targetSchema == CurrentSchemaVersion(migrations)
      ensures appliedMigrations == |applied| && status == OK && reason == ""
      ensures pendingMigrations == if |applied| < |migrations| then |migrations| - |applied| else 0
    {
      var pending := |migrations| - |applied|;
      if pending < 0 {
        pending := 0;
      }
      currentSchema, targetSchema := CurrentApplied(applied), CurrentSchemaVersion(migrations);
      appliedMigrations, pendingMigrations := |applied|, pending;
      status, reason := OK, "";
    }
  }

  /** For a sorted history: the verdict, its reason, and for an accepted one the number of migrations still to run. */
  ghost predicate Describes(report: CompatibilityReport, migrations: seq<Migration>, applied: seq<Record>)
    reads report
  {
    Fits(report.status, report.reason, report.pendingMigrations, migrations, applied)
  }

  ghost predicate Fits(status: Status, reason: string, pending: int, migrations: seq<Migration>, applied: seq<Record>)
  {
    && (status == OK <==> applied == RecordsOf(migrations))
    && (status == MigrationRequired <==> |applied| < |migrations| && IsPrefixHistory(migrations, applied))
    && (status == FutureSchema <==> AfterEveryKnown(migrations, applied))
    && (status in {OK, MigrationRequired} <==> IsPrefixHistory(migrations, applied))
    && (IsPrefixHistory(migrations, applied) ==> pending == |migrations| - |applied|)
    && (status == OK <==> reason == "schema_current")
    && ReasonNames(status, reason, migrations, applied)
  }

  /** Some migration has the row's name and checksum. */
  predicate RowFits(migrations: seq<Migration>, row: Record)
  {
    exists m | 0 <= m < |migrations| :: migrations[m].name == row.name && Checksum(migrations[m]) == row.checksum
  }

  predicate FirstBadRow(migrations: seq<Migration>, applied: seq<Record>, i: nat)
    requires i < |applied|
  {
    !RowFits(migrations, applied[i]) && forall k | 0 <= k < i :: RowFits(migrations, applied[k])
  }

  /** The reason names the first row that does not fit and its cause; else the gap; else what is still to run. */
  ghost predicate ReasonNames(status: Status, reason: string, migrations: seq<Migration>, applied: seq<Record>)
  {
    && (forall i | 0 <= i < |applied| && FirstBadRow(migrations, applied, i) ::
          reason == (if exists m :: 0 <= m < |migrations| && migrations[m].name == applied[i].name then "checksum_mismatch_"
                     else "unknown_migration_") + applied[i].name)
    && ((forall i | 0 <= i < |applied| :: RowFits(migrations, applied[i])) && !IsPrefixHistory(migrations, applied) ==>
          reason == "non_contiguous_migration_history")
    && (status == MigrationRequired ==> reason == "pending_migrations")
  }

  lemma RowFitsIff(migrations: seq<Migration>, row: Record)
    requires StrictlyIncreasing(Names(migrations))
    ensures RowFits(migrations, row) <==> RecordFits(Known(migrations), row)
    ensures row.name in Known(migrations) <==> exists m :: 0 <= m < |migrations| && migrations[m].name == row.name
  {
    KnownLooksUp(migrations, row.name);
    if m :| 0 <= m < |migrations| && migrations[m].name == row.name {
      assert Names(migrations)[m] == row.name;
    }
    if row.name in Names(migrations) {
      var m :| 0 <= m < |migrations| && Names(migrations)[m] == row.name;
      assert migrations[m].name == row.name;
    }
  }

  predicate Sorted(migrations: seq<Migration>, applied: seq<Record>)
  {
    StrictlyIncreasing(Names(migrations)) && StrictlyIncreasing(AppliedNames(applied))
  }

  /** What the first loop reports is the first row that does not fit. */
  lemma BadRowIsNamed(migrations: seq<Migration>, applied: seq<Record>, bad: nat, status: Status, reason: string)
    requires StrictlyIncreasing(Names(migrations)) && bad < |applied| && !RecordFits(Known(migrations), applied[bad])
    requires forall k | 0 <= k < bad :: RecordFits(Known(migrations), applied[k])
    requires reason == (if applied[bad].name in Known(migrations) then "checksum_mismatch_" else "unknown_migration_") + applied[bad].name
    requires status != MigrationRequired
    ensures ReasonNames(status, reason, migrations, applied)
  {
    forall k | 0 <= k < |applied| ensures RowFits(migrations, applied[k]) <==> RecordFits(Known(migrations), applied[k]) {
      RowFitsIff(migrations, applied[k]);
    }
    RowFitsIff(migrations, applied[bad]);
    hide RowFits, RecordFits, Known, IsPrefixHistory;
    assert forall i | 0 <= i < |applied| && FirstBadRow(migrations, applied, i) :: i == bad;
  }

  lemma NoBadRow(migrations: seq<Migration>, applied: seq<Record>, status: Status, reason: string)
    requires StrictlyIncreasing(Names(migrations))
    requires forall k | 0 <= k < |applied| :: RecordFits(Known(migrations), applied[k])
    requires !IsPrefixHistory(migrations, applied) ==> reason == "non_contiguous_migration_history"
    requires status == MigrationRequired ==> reason == "pending_migrations"
    ensures ReasonNames(status, reason, migrations, applied)
  {
    forall k | 0 <= k < |applied| ensures RowFits(migrations, applied[k]) {
      RowFitsIff(migrations, applied[k]);
    }
    hide RowFits, RecordFits, Known, IsPrefixHistory;
  }

  /** A first row that does not fit: corrupt or future, and the reason is that row and its cause. */
  lemma BadRowFits(migrations: seq<Migration>, applied: seq<Record>, reason: string, pending: int)
    requires Sorted(migrations, applied)
    requires exists bad ::
               && 0 <= bad < |applied| && !RecordFits(Known(migrations), applied[bad])
               && (forall k | 0 <= k < bad :: RecordFits(Known(migrations), applied[k]))
               && reason == (if applied[bad].name in Known(migrations) then "checksum_mismatch_" else "unknown_migration_")
                            + applied[bad].name
    ensures Fits(if Less(CurrentSchemaVersion(migrations), CurrentApplied(applied)) then FutureSchema else CorruptHistory,
                 reason, pending, migrations, applied)
  {
    var status := if Less(CurrentSchemaVersion(migrations), CurrentApplied(applied)) then FutureSchema else CorruptHistory;
    AcceptedIffPrefix(migrations, applied);
    WholePrefix(migrations, applied);
    hide ReasonNames, Known, IsPrefixHistory, RecordsOf, CurrentApplied, CurrentSchemaVersion, StrictlyIncreasing, Less;
    var bad :| 0 <= bad < |applied| && !RecordFits(Known(migrations), applied[bad])
      && (forall k | 0 <= k < bad :: RecordFits(Known(migrations), applied[k]))
      && reason == (if applied[bad].name in Known(migrations) then "checksum_mismatch_" else "unknown_migration_") + applied[bad].name;
    BadRowIsNamed(migrations, applied, bad, status, reason);
    assert reason[0] != "schema_current"[0];
  }

  /** Every row fits, but a migration is missing before an applied one. */
  lemma GapFits(migrations: seq<Migration>, applied: seq<Record>, pending: int)
    requires Sorted(migrations, applied) && !Contiguous(migrations, applied)
    requires forall k | 0 <= k < |applied| :: RecordFits(Known(migrations), applied[k])
    ensures Fits(CorruptHistory, "non_contiguous_migration_history", pending, migrations, applied)
  {
    AcceptedIffPrefix(migrations, applied);
    WholePrefix(migrations, applied);
    NoFutureFits(migrations, applied);
    NoBadRow(migrations, applied, CorruptHistory, "non_contiguous_migration_history");
    assert "non_contiguous_migration_history"[0] != "schema_current"[0];
    hide ReasonNames, Known, IsPrefixHistory, RecordsOf, AfterEveryKnown, StrictlyIncreasing, Less;
  }

  lemma NoFutureFits(migrations: seq<Migration>, applied: seq<Record>)
    requires Sorted(migrations, applied)
    requires forall k | 0 <= k < |applied| :: RecordFits(Known(migrations), applied[k])
    ensures !AfterEveryKnown(migrations, applied)
  {
    if AfterEveryKnown(migrations, applied) {
      FutureIsNoPrefix(migrations, applied);
    }
  }

  /** An accepted history. */
  lemma PrefixFits(migrations: seq<Migration>, applied: seq<Record>)
    requires Sorted(migrations, applied) && Contiguous(migrations, applied)
    requires forall k | 0 <= k < |applied| :: RecordFits(Known(migrations), applied[k])
    ensures |applied| <= |migrations|
    ensures |applied| < |migrations| ==>
              Fits(MigrationRequired, "pending_migrations", |migrations| - |applied|, migrations, applied)
    ensures |applied| == |migrations| ==> Fits(OK, "schema_current", 0, migrations, applied)
  {
    AcceptedIffPrefix(migrations, applied);
    WholePrefix(migrations, applied);
    NoFutureFits(migrations, applied);
    if |applied| < |migrations| {
      NoBadRow(migrations, applied, MigrationRequired, "pending_migrations");
      PendingFits(migrations, applied);
    } else {
      NoBadRow(migrations, applied, OK, "schema_current");
      CurrentFits(migrations, applied);
    }
    hide *;
  }

  lemma PendingFits(migrations: seq<Migration>, applied: seq<Record>)
    requires |applied| < |migrations| && IsPrefixHistory(migrations, applied) && !AfterEveryKnown(migrations, applied)
    requires applied != RecordsOf(migrations) && ReasonNames(MigrationRequired, "pending_migrations", migrations, applied)
    ensures Fits(MigrationRequired, "pending_migrations", |migrations| - |applied|, migrations, applied)
  {
    assert "pending_migrations"[0] != "schema_current"[0];
    hide ReasonNames, IsPrefixHistory, AfterEveryKnown, RecordsOf;
  }

  lemma CurrentFits(migrations: seq<Migration>, applied: seq<Record>)
    requires IsPrefixHistory(migrations, applied) && !AfterEveryKnown(migrations, applied) && |applied| == |migrations|
    requires applied == RecordsOf(migrations) && ReasonNames(OK, "schema_current", migrations, applied)
    ensures Fits(OK, "schema_current", 0, migrations, applied)
  {
    hide ReasonNames, IsPrefixHistory, AfterEveryKnown, RecordsOf;
  }

  method ClassifyCompatibility(report: CompatibilityReport, migrations: seq<Migration>, applied: seq<Record>)
    requires StrictlyIncreasing(Names(migrations)) && StrictlyIncreasing(AppliedNames(applied))
    requires report.currentSchema == CurrentApplied(applied) && report.targetSchema == CurrentSchemaVersion(migrations)
    requires report.status == OK
    requires report.pendingMigrations == if |applied| < |migrations| then |migrations| - |applied| else 0
    modifies report
    ensures Describes(report, migrations, applied)
    ensures report.appliedMigrations == old(report.appliedMigrations)
    ensures report.currentSchema == old(report.currentSchema) && report.targetSchema == old(report.targetSchema)
  {
    var known := KnownMigrationChecksums(migrations);
    hide Fits, RecordFits, Known, Contiguous, CurrentApplied, CurrentSchemaVersion, StrictlyIncreasing, Names, AppliedNames, Less;
    var reason := InvalidAppliedMigration(known, applied);
    if reason != "" {
      report.status := if Less(report.targetSchema, report.currentSchema) then FutureSchema else CorruptHistory;
      report.reason := reason;
      BadRowFits(migrations, applied, reason, report.pendingMigrations);
      return;
    }
    reason := NonContiguousHistory(migrations, applied);
    if reason != "" {
      report.status := CorruptHistory;
      report.reason := reason;
      GapFits(migrations, applied, report.pendingMigrations);
      return;
    }
    PrefixFits(migrations, applied);
    if report.pendingMigrations > 0 {
      report.status := MigrationRequired;
      report.reason := "pending_migrations";
      return;
    }
    report.pendingMigrations := 0;
    report.reason := "schema_current";
  }

  lemma WholePrefix(migrations: seq<Migration>, applied: seq<Record>)
    ensures applied == RecordsOf(migrations) <==> IsPrefixHistory(migrations, applied) && |applied| == |migrations|
    ensures IsPrefixHistory(migrations, applied) ==> |applied| <= |migrations|
  {
    assert migrations[..|migrations|] == migrations;
    assert |RecordsOf(migrations)| == |migrations|;
  }

  /** Accepted exactly for a checksummed beginning of the migrations. */
  method CheckSchemaCompatibility(migrations: seq<Migration>, applied: seq<Record>)
    returns (report: CompatibilityReport, accepted: bool)
    requires StrictlyIncreasing(Names(migrations)) && StrictlyIncreasing(AppliedNames(applied))
    ensures Describes(report, migrations, applied)
    ensures accepted <==> IsPrefixHistory(migrations, applied)
  {
    report := new CompatibilityReport(migrations, applied);
    ClassifyCompatibility(report, migrations, applied);
    accepted := report.status != FutureSchema && report.status != CorruptHistory;
  }
}
