/** internal/db/migrations.go and db.go: opening the database, one statement at a time. */
module Migrations {
  import opened Wrappers
  import opened TextOrder
  import opened Compatibility

  /** The durable database: is schema_migrations there, its rows, and the SQL committed so far, in order. */
  datatype Schema = Schema(tableExists: bool, rows: map<string, string>, committed: seq<string>)

  datatype Outcome = Opened | Refused | MigrationFailed

  function SqlOf(migrations: seq<Migration>): seq<string>
  {
    seq(|migrations|, i requires 0 <= i < |migrations| => migrations[i].sql)
  }

  // ---------------------------------------------------------------- SELECT ... ORDER BY name

  lemma {:induction false} FirstName(names: set<string>) returns (first: string)
    requires names != {}
    ensures first in names && forall n | n in names :: n == first || Less(first, n)
  {
    var some :| some in names;
    if names - {some} == {} {
      assert names == {some};
      first := some;
    } else {
      var other := FirstName(names - {some});
      Trichotomy(some, other);
      if Less(some, other) {
        first := some;
        forall n | n in names && n != some && n != other ensures Less(some, n) {
          Transitive(some, other, n);
        }
      } else {
        first := other;
      }
    }
  }

  lemma OneFirstName(names: set<string>)
    requires names != {}
    ensures exists first :: first in names && forall n | n in names :: n == first || Less(first, n)
    ensures forall a, b | a in names && b in names && (a == b || Less(a, b)) && (b == a || Less(b, a)) :: a == b
  {
    var first := FirstName(names);
    forall a, b | a in names && b in names && (a == b || Less(a, b)) && (b == a || Less(b, a)) ensures a == b {
      Trichotomy(a, b);
    }
  }

  function First(names: set<string>): (first: string)
    requires names != {}
    ensures first in names && forall n | n in names :: n == first || Less(first, n)
  {
    OneFirstName(names);
    var first: string :| first in names && forall n | n in names :: n == first || Less(first, n);
    first
  }

  /** The rows of schema_migrations, sorted by name. */
  function InNameOrder(rows: map<string, string>): seq<Record>
  {
    if rows == map[] then []
    else
      var first := First(rows.Keys);
      [Record(first, rows[first])] + InNameOrder(rows - {first})
  }

  lemma {:induction false} InNameOrderLists(rows: map<string, string>)
    ensures StrictlyIncreasing(AppliedNames(InNameOrder(rows))) && |InNameOrder(rows)| == |rows|
    ensures forall r :: r in InNameOrder(rows) <==> r.name in rows && rows[r.name] == r.checksum
  {
    if rows != map[] {
      var first := First(rows.Keys);
      var rest := rows - {first};
      InNameOrderLists(rest);
      assert rows.Keys == rest.Keys + {first};
      assert InNameOrder(rows) == [Record(first, rows[first])] + InNameOrder(rest);
      StaysSorted(Record(first, rows[first]), InNameOrder(rest));
      hide InNameOrder;
      forall r ensures r in InNameOrder(rows) <==> r.name in rows && rows[r.name] == r.checksum {
        assert r in InNameOrder(rows) <==> r == Record(first, rows[first]) || r in InNameOrder(rest);
      }
    }
  }

  lemma StaysSorted(first: Record, rest: seq<Record>)
    requires StrictlyIncreasing(AppliedNames(rest))
    requires forall r | r in rest :: Less(first.name, r.name)
    ensures StrictlyIncreasing(AppliedNames([first] + rest))
  {
    assert AppliedNames([first] + rest) == [first.name] + AppliedNames(rest);
    assert forall j | 0 <= j < |rest| :: rest[j] in rest && AppliedNames(rest)[j] == rest[j].name;
  }

  /** Sorting leaves no choice: a sorted list with the same rows is that list. */
  lemma SortedRowsAreUnique(rows: map<string, string>, records: seq<Record>)
    requires StrictlyIncreasing(AppliedNames(records))
    requires forall r :: r in records <==> r.name in rows && rows[r.name] == r.checksum
    ensures records == InNameOrder(rows)
  {
    var sorted := InNameOrder(rows);
    InNameOrderLists(rows);
    SameNames(rows, records, sorted);
    SameNames(rows, sorted, records);
    IncreasingListsAgree(AppliedNames(records), AppliedNames(sorted));
    forall i | 0 <= i < |records| ensures records[i] == sorted[i] {
      assert records[i] in records && sorted[i] in sorted;
      assert AppliedNames(records)[i] == AppliedNames(sorted)[i];
    }
  }

  lemma SameNames(rows: map<string, string>, a: seq<Record>, b: seq<Record>)
    requires forall r :: r in a <==> r.name in rows && rows[r.name] == r.checksum
    requires forall r :: r in b <==> r.name in rows && rows[r.name] == r.checksum
    ensures forall x | x in AppliedNames(a) :: x in AppliedNames(b)
  {
    forall x | x in AppliedNames(a) ensures x in AppliedNames(b) {
      var i :| 0 <= i < |a| && AppliedNames(a)[i] == x;
      assert a[i] in a;
      var k :| 0 <= k < |b| && b[k] == a[i];
      assert AppliedNames(b)[k] == x;
    }
  }

  // ---------------------------------------------------------------- histories that are prefixes

  /** The database that the first n migrations leave behind, each committed once and in order. */
  function Stage(migrations: seq<Migration>, n: nat, tableExists: bool): Schema
    requires n <= |migrations|
  {
    Schema(tableExists, Known(migrations[..n]), SqlOf(migrations[..n]))
  }

  /** What SELECT ... ORDER BY name on schema_migrations reports; nothing without the table. */
  function Applied(s: Schema): seq<Record>
  {
    if s.tableExists then InNameOrder(s.rows) else []
  }

  /** An empty database or an accepted history whose SQL was committed in step with its rows. */
  predicate Healthy(migrations: seq<Migration>, s: Schema)
  {
    && (s.tableExists || s.rows == map[])
    && IsPrefixHistory(migrations, Applied(s))
    && s.committed == SqlOf(migrations[..|Applied(s)|])
  }

  /** The rows of the first n migrations: sorted, they read back as those migrations' records. */
  lemma RowsOfKnown(migrations: seq<Migration>, n: nat)
    requires StrictlyIncreasing(Names(migrations)) && n <= |migrations|
    ensures InNameOrder(Known(migrations[..n])) == RecordsOf(migrations[..n])
    ensures |Known(migrations[..n])| == n
  {
    var ms, records := migrations[..n], RecordsOf(migrations[..n]);
    assert forall i | 0 <= i < n :: Names(ms)[i] == Names(migrations)[i] == AppliedNames(records)[i];
    forall r ensures r in records <==> r.name in Known(ms) && Known(ms)[r.name] == r.checksum {
      KnownRecord(ms, r);
    }
    SortedRowsAreUnique(Known(ms), records);
    InNameOrderLists(Known(ms));
  }

  lemma KnownRecord(ms: seq<Migration>, r: Record)
    requires StrictlyIncreasing(Names(ms))
    ensures r in RecordsOf(ms) <==> r.name in Known(ms) && Known(ms)[r.name] == r.checksum
  {
    KnownLooksUp(ms, r.name);
    if r in RecordsOf(ms) {
      var i :| 0 <= i < |ms| && RecordsOf(ms)[i] == r;
      assert Names(ms)[i] == r.name;
    } else if r.name in Known(ms) {
      var i :| 0 <= i < |ms| && Names(ms)[i] == r.name;
      assert RecordsOf(ms)[i] != r;
    }
  }

  lemma KnownSoFar(migrations: seq<Migration>, n: nat)
    requires StrictlyIncreasing(Names(migrations)) && n <= |migrations|
    ensures n < |migrations| ==> migrations[n].name !in Known(migrations[..n])
    ensures n < |migrations| ==> Known(migrations[..n + 1]) == Known(migrations[..n])[migrations[n].name := Checksum(migrations[n])]
    ensures n < |migrations| ==> SqlOf(migrations[..n + 1]) == SqlOf(migrations[..n]) + [migrations[n].sql]
    ensures forall i | 0 <= i < n ::
              migrations[i].name in Known(migrations[..n]) && Known(migrations[..n])[migrations[i].name] == Checksum(migrations[i])
  {
    var ms := migrations[..n];
    assert forall i | 0 <= i < n :: Names(ms)[i] == Names(migrations)[i];
    forall i | 0 <= i < n ensures migrations[i].name in Known(ms) && Known(ms)[migrations[i].name] == Checksum(migrations[i]) {
      KnownLooksUp(ms, ms[i].name);
    }
    if n < |migrations| {
      KnownLooksUp(ms, migrations[n].name);
      forall i | 0 <= i < n ensures Names(ms)[i] != migrations[n].name {
        assert Less(Names(migrations)[i], Names(migrations)[n]);
        Irreflexive(migrations[n].name);
      }
      assert migrations[..n + 1][..n] == ms;
    }
  }

  /** Healthy databases are exactly the stages. */
  lemma HealthyIffStage(migrations: seq<Migration>, s: Schema)
    requires StrictlyIncreasing(Names(migrations))
    ensures Healthy(migrations, s) <==>
            exists n :: 0 <= n <= |migrations| && s == Stage(migrations, n, s.tableExists) && (s.tableExists || n == 0)
    ensures Healthy(migrations, s) ==> |s.rows| <= |migrations| && s == Stage(migrations, |s.rows|, s.tableExists)
  {
    if Healthy(migrations, s) {
      var n := |Applied(s)|;
      RowsOfKnown(migrations, n);
      if s.tableExists {
        SameRows(s.rows, Known(migrations[..n]));
      }
      assert s == Stage(migrations, n, s.tableExists);
    }
    forall n | 0 <= n <= |migrations| && s == Stage(migrations, n, s.tableExists) && (s.tableExists || n == 0)
      ensures Healthy(migrations, s)
    {
      RowsOfKnown(migrations, n);
    }
  }

  lemma SameRows(a: map<string, string>, b: map<string, string>)
    requires InNameOrder(a) == InNameOrder(b)
    ensures a == b
  {
    InNameOrderLists(a);
    InNameOrderLists(b);
    hide InNameOrder;
    forall x: string ensures x in a <==> x in b
      ensures x in a && x in b ==> a[x] == b[x]
    {
      assert x in a ==> Record(x, a[x]) in InNameOrder(a);
      assert x in b ==> Record(x, b[x]) in InNameOrder(b);
    }
  }

  // ---------------------------------------------------------------- one Open that is not interrupted

  function EnsureTable(s: Schema): Schema
  {
    if s.tableExists then s else Schema(true, map[], s.committed)
  }

  /** The stored checksum; a missing row reads as the empty string. */
  function StoredChecksum(s: Schema, name: string): string
  {
    if name in s.rows then s.rows[name] else ""
  }

  function Recorded(s: Schema, m: Migration): Schema
  {
    s.(rows := s.rows[m.name := Checksum(m)], committed := s.committed + [m.sql])
  }

  /** Migration i and those after it: verify, or run and record, and stop at the first failure. */
  function MigrateFrom(migrations: seq<Migration>, i: nat, s: Schema): (Schema, Outcome)
    requires i <= |migrations|
    decreases |migrations| - i
  {
    if i == |migrations| then (s, Opened)
    else
      var m := migrations[i];
      var stored := StoredChecksum(s, m.name);
      if stored != "" then
        if stored == Checksum(m) then MigrateFrom(migrations, i + 1, s) else (s, MigrationFailed)
      else if m.name in s.rows then (s, MigrationFailed)
      else MigrateFrom(migrations, i + 1, Recorded(s, m))
  }

  function OpenResult(migrations: seq<Migration>, s: Schema): (Schema, Outcome)
  {
    if IsPrefixHistory(migrations, Applied(s)) then MigrateFrom(migrations, 0, EnsureTable(s)) else (s, Refused)
  }

  /** An applied migration is only verified; the first missing one is run and recorded. */
  lemma StageMigrates(migrations: seq<Migration>, i: nat, n: nat)
    requires StrictlyIncreasing(Names(migrations)) && i <= n <= |migrations| && i < |migrations|
    ensures MigrateFrom(migrations, i, Stage(migrations, n, true))
         == MigrateFrom(migrations, i + 1, Stage(migrations, if i < n then n else n + 1, true))
  {
    KnownSoFar(migrations, n);
    hide Known;
    hide Checksum;
    hide SqlOf;
    hide Names;
    hide StrictlyIncreasing;
    if i == n {
      assert Recorded(Stage(migrations, n, true), migrations[i]) == Stage(migrations, n + 1, true);
    }
  }

  lemma {:induction false} MigratesToTheEnd(migrations: seq<Migration>, i: nat, n: nat)
    requires StrictlyIncreasing(Names(migrations)) && i <= n <= |migrations|
    ensures MigrateFrom(migrations, i, Stage(migrations, n, true)) == (Stage(migrations, |migrations|, true), Opened)
    decreases |migrations| - i
  {
    hide Stage;
    if i < |migrations| {
      StageMigrates(migrations, i, n);
      MigratesToTheEnd(migrations, i + 1, if i < n then n else n + 1);
    }
  }

  /**
   Opening a healthy database runs exactly the migrations that are missing, in order; any other
   history is refused and nothing is written.
   */
  lemma OpenRunsWhatIsMissing(migrations: seq<Migration>, s: Schema)
    requires StrictlyIncreasing(Names(migrations))
    ensures Healthy(migrations, s) ==> OpenResult(migrations, s) == (Stage(migrations, |migrations|, true), Opened)
    ensures !IsPrefixHistory(migrations, Applied(s)) <==> OpenResult(migrations, s).1 == Refused
    ensures !IsPrefixHistory(migrations, Applied(s)) ==> OpenResult(migrations, s).0 == s
  {
    if Healthy(migrations, s) {
      HealthyIffStage(migrations, s);
      assert s.tableExists || s == Stage(migrations, 0, false);
      assert EnsureTable(s) == Stage(migrations, |s.rows|, true);
      MigratesToTheEnd(migrations, 0, |s.rows|);
    }
    NeverRefuses(migrations, 0, EnsureTable(s));
  }

  lemma {:induction false} NeverRefuses(migrations: seq<Migration>, i: nat, s: Schema)
    requires i <= |migrations|
    ensures MigrateFrom(migrations, i, s).1 != Refused
    decreases |migrations| - i
  {
    hide Checksum;
    hide StoredChecksum;
    if i < |migrations| {
      NeverRefuses(migrations, i + 1, s);
      NeverRefuses(migrations, i + 1, Recorded(s, migrations[i]));
    }
  }

  // ---------------------------------------------------------------- statement by statement

  /** The next statement to be sent; transaction is what the open transaction would commit. */
  datatype Point =
    | Pragma(done: nat)
    | InspectTable
    | ReadHistory
    | CreateTable
    | ReadChecksum(i: nat)
    | BeginTx(i: nat)
    | RunSql(i: nat)
    | InsertRow(i: nat)
    | Commit(i: nat)
    | Finished(outcome: Outcome)

  datatype Machine = Machine(durable: Schema, transaction: Option<Schema>, point: Point)

  datatype Event = Statement | Restart

  const PRAGMAS: nat := 3

  predicate AtIndex(migrations: seq<Migration>, m: Machine)
  {
    match m.point
    case BeginTx(i) => i < |migrations|
    case RunSql(i) => i < |migrations| && m.transaction.Some?
    case InsertRow(i) => i < |migrations| && m.transaction.Some?
    case Commit(i) => i < |migrations| && m.transaction.Some?
    case ReadChecksum(i) => i < |migrations|
    case Pragma(done) => done < PRAGMAS
    case _ => true
  }

  function Start(s: Schema): Machine
  {
    Machine(s, None, Pragma(0))
  }

  function NextMigration(migrations: seq<Migration>, i: nat): Point
  {
    if i < |migrations| then ReadChecksum(i) else Finished(Opened)
  }

  function Execute(migrations: seq<Migration>, m: Machine): (after: Machine)
    requires AtIndex(migrations, m)
    ensures AtIndex(migrations, after)
  {
    match m.point
    case Pragma(done) =>
      m.(point := if done + 1 < PRAGMAS then Pragma(done + 1) else InspectTable)
    case InspectTable =>
      m.(point := if m.durable.tableExists then ReadHistory else if IsPrefixHistory(migrations, []) then CreateTable else Finished(Refused))
    case ReadHistory =>
      m.(point := if IsPrefixHistory(migrations, Applied(m.durable)) then CreateTable else Finished(Refused))
    case CreateTable =>
      m.(durable := EnsureTable(m.durable), point := NextMigration(migrations, 0))
    case ReadChecksum(i) =>
      var stored := StoredChecksum(m.durable, migrations[i].name);
      m.(point :=
        if stored == "" then BeginTx(i)
        else if stored == Checksum(migrations[i]) then NextMigration(migrations, i + 1)
        else Finished(MigrationFailed))
    case BeginTx(i) =>
      m.(transaction := Some(m.durable), point := RunSql(i))
    case RunSql(i) =>
      var tx := m.transaction.value;
      m.(transaction := Some(tx.(committed := tx.committed + [migrations[i].sql])), point := InsertRow(i))
    case InsertRow(i) =>
      var tx, name := m.transaction.value, migrations[i].name;
      if name in tx.rows then m.(transaction := None, point := Finished(MigrationFailed))
      else m.(transaction := Some(tx.(rows := tx.rows[name := Checksum(migrations[i])])), point := Commit(i))
    case Commit(i) =>
      Machine(m.transaction.value, None, NextMigration(migrations, i + 1))
    case Finished(_) => m
  }

  /** Restart is a crash at any point, or a later Open: an open transaction is lost. */
  function Step(migrations: seq<Migration>, m: Machine, e: Event): (after: Machine)
    requires AtIndex(migrations, m)
    ensures AtIndex(migrations, after)
  {
    match e
    case Statement => Execute(migrations, m)
    case Restart => Start(m.durable)
  }

  function After(migrations: seq<Migration>, m: Machine, events: seq<Event>): (after: Machine)
    requires AtIndex(migrations, m)
    ensures AtIndex(migrations, after)
  {
    if events == [] then m
    else Step(migrations, After(migrations, m, events[..|events| - 1]), events[|events| - 1])
  }

  // ---------------------------------------------------------------- every run on a healthy database

  /** Between any two statements: exactly n migrations are committed, and the transaction holds what its point says. */
  ghost predicate Inv(migrations: seq<Migration>, m: Machine, n: nat)
  {
    && n <= |migrations|
    && m.durable == Stage(migrations, n, m.durable.tableExists)
    && (m.durable.tableExists || n == 0)
    && match m.point
       case Pragma(done) => m.transaction == None && done < PRAGMAS
       case InspectTable => m.transaction == None
       case ReadHistory => m.transaction == None && m.durable.tableExists
       case CreateTable => m.transaction == None
       case ReadChecksum(i) => m.transaction == None && m.durable.tableExists && i <= n && i < |migrations|
       case BeginTx(i) => m.transaction == None && m.durable.tableExists && i == n < |migrations|
       case RunSql(i) => m.transaction == Some(m.durable) && m.durable.tableExists && i == n < |migrations|
       case InsertRow(i) =>
         && i == n < |migrations| && m.durable.tableExists
         && m.transaction == Some(m.durable.(committed := SqlOf(migrations[..n + 1])))
       case Commit(i) =>
         && i == n < |migrations| && m.durable.tableExists
         && m.transaction == Some(Stage(migrations, n + 1, true))
       case Finished(outcome) =>
         m.transaction == None && m.durable.tableExists && outcome == Opened && n == |migrations|
  }

  lemma PreludeKeepsInv(migrations: seq<Migration>, m: Machine, n: nat)
    requires StrictlyIncreasing(Names(migrations)) && Inv(migrations, m, n) && AtIndex(migrations, m)
    requires m.point.Pragma? || m.point.InspectTable? || m.point.ReadHistory? || m.point.CreateTable?
    ensures Inv(migrations, Execute(migrations, m), n)
  {
    RowsOfKnown(migrations, n);
    assert IsPrefixHistory(migrations, []);
    if m.durable.tableExists {
      assert Applied(m.durable) == RecordsOf(migrations[..n]);
      assert IsPrefixHistory(migrations, Applied(m.durable));
    }
    hide InNameOrder;
    hide IsPrefixHistory;
    assert !m.durable.tableExists ==> EnsureTable(m.durable) == Stage(migrations, 0, true);
  }

  lemma MigrationKeepsInv(migrations: seq<Migration>, m: Machine, n: nat) returns (n': nat)
    requires StrictlyIncreasing(Names(migrations)) && Inv(migrations, m, n) && AtIndex(migrations, m)
    requires !(m.point.Pragma? || m.point.InspectTable? || m.point.ReadHistory? || m.point.CreateTable?)
    ensures Inv(migrations, Execute(migrations, m), n') && n <= n' <= n + 1
  {
    n' := if m.point.Commit? then n + 1 else n;
    KnownSoFar(migrations, n);
    hide Known;
    hide SqlOf;
    hide Checksum;
  }

  lemma StepKeepsInv(migrations: seq<Migration>, m: Machine, n: nat, e: Event) returns (n': nat)
    requires StrictlyIncreasing(Names(migrations)) && Inv(migrations, m, n) && AtIndex(migrations, m)
    ensures Inv(migrations, Step(migrations, m, e), n') && n <= n' <= n + 1
  {
    n' := n;
    if e == Statement {
      if m.point.Pragma? || m.point.InspectTable? || m.point.ReadHistory? || m.point.CreateTable? {
        PreludeKeepsInv(migrations, m, n);
      } else {
        n' := MigrationKeepsInv(migrations, m, n);
      }
      hide Execute;
    }
  }

  lemma {:induction false} RunKeepsInv(migrations: seq<Migration>, m: Machine, n: nat, events: seq<Event>) returns (n': nat)
    requires StrictlyIncreasing(Names(migrations)) && Inv(migrations, m, n) && AtIndex(migrations, m)
    ensures Inv(migrations, After(migrations, m, events), n') && n <= n'
  {
    n' := n;
    if events != [] {
      var before := events[..|events| - 1];
      n' := RunKeepsInv(migrations, m, n, before);
      n' := StepKeepsInv(migrations, After(migrations, m, before), n', events[|events| - 1]);
    }
  }

  /**
   Crashes and restarts anywhere between statements: the database stays a checksummed prefix with
   every migration's SQL committed once and in order, committed work is never lost, and an Open that
   finishes has succeeded and left what an uninterrupted Open leaves.
   */
  lemma CrashesAreHarmless(migrations: seq<Migration>, s: Schema, events: seq<Event>)
    requires StrictlyIncreasing(Names(migrations)) && Healthy(migrations, s)
    ensures var m := After(migrations, Start(s), events);
            && Healthy(migrations, m.durable)
            && |s.rows| <= |m.durable.rows| && s.committed <= m.durable.committed
            && (m.point.Finished? ==> m.point == Finished(Opened) && m.durable == OpenResult(migrations, s).0
                                      && m.durable.committed == SqlOf(migrations))
  {
    HealthyIffStage(migrations, s);
    var n0 := |s.rows|;
    assert s.tableExists || s == Stage(migrations, 0, false);
    var n := RunKeepsInv(migrations, Start(s), n0, events);
    var m := After(migrations, Start(s), events);
    HealthyIffStage(migrations, m.durable);
    RowsOfKnown(migrations, n);
    assert migrations[..n][..n0] == migrations[..n0];
    assert SqlOf(migrations[..n0]) == SqlOf(migrations[..n])[..n0];
    OpenRunsWhatIsMissing(migrations, s);
    assert migrations[..|migrations|] == migrations;
  }

  // ---------------------------------------------------------------- finishing

  /** Statements still to be sent, at most, if nothing interrupts them. */
  function Remaining(migrations: seq<Migration>, m: Machine): nat
    requires AtIndex(migrations, m)
  {
    var work := 5 * |migrations| + 1;
    match m.point
    case Pragma(done) => work + 3 + PRAGMAS - done
    case InspectTable => work + 3
    case ReadHistory => work + 2
    case CreateTable => work + 1
    case ReadChecksum(i) => 5 * (|migrations| - i) + 1
    case BeginTx(i) => 5 * (|migrations| - i)
    case RunSql(i) => 5 * (|migrations| - i) - 1
    case InsertRow(i) => 5 * (|migrations| - i) - 2
    case Commit(i) => 5 * (|migrations| - i) - 3
    case Finished(_) => 0
  }

  function Statements(k: nat): seq<Event>
  {
    seq(k, i => Statement)
  }

  /** A point outside a transaction that the run can be at. */
  predicate Outside(migrations: seq<Migration>, m: Machine)
    requires AtIndex(migrations, m)
  {
    && m.transaction == None && !m.point.RunSql? && !m.point.InsertRow? && !m.point.Commit?
    && (m.point.BeginTx? ==> StoredChecksum(m.durable, migrations[m.point.i].name) == "")
    && (m.point.ReadHistory? ==> m.durable.tableExists)
  }

  lemma OutsideStep(migrations: seq<Migration>, m: Machine)
    requires AtIndex(migrations, m) && Outside(migrations, m) && !m.point.BeginTx? && !m.point.Finished?
    ensures var next := Execute(migrations, m);
            && Outside(migrations, next) && Remaining(migrations, next) < Remaining(migrations, m)
            && Result(migrations, next) == Result(migrations, m)
  {
    hide InNameOrder;
    hide IsPrefixHistory;
    var s := m.durable;
    match m.point {
      case ReadChecksum(i) =>
        assert Execute(migrations, m).point == NextMigration(migrations, i + 1)
          ==> Result(migrations, Execute(migrations, m)) == MigrateFrom(migrations, i + 1, s);
      case CreateTable =>
        assert Execute(migrations, m).durable == EnsureTable(s);
        assert Result(migrations, m) == MigrateFrom(migrations, 0, EnsureTable(s));
        assert Result(migrations, Execute(migrations, m)) == Result(migrations, m);
      case ReadHistory =>
        assert Result(migrations, Execute(migrations, m)) == Result(migrations, m);
      case InspectTable =>
        assert Result(migrations, Execute(migrations, m)) == Result(migrations, m);
      case Pragma(_) =>
        assert Result(migrations, Execute(migrations, m)) == Result(migrations, m);
    }
  }

  lemma OutsideTransaction(migrations: seq<Migration>, m: Machine) returns (after: Machine)
    requires AtIndex(migrations, m) && Outside(migrations, m) && m.point.BeginTx?
    ensures after == After(migrations, m, Statements(TransactionLength(migrations, m)))
    ensures Outside(migrations, after) && Remaining(migrations, after) + TransactionLength(migrations, m) <= Remaining(migrations, m)
    ensures Result(migrations, after) == Result(migrations, m)
  {
    after := TransactionRuns(migrations, m);
    hide After;
    hide Execute;
    var i, s := m.point.i, m.durable;
    if migrations[i].name !in s.rows {
      var recorded := Recorded(s, migrations[i]);
      assert Result(migrations, m) == MigrateFrom(migrations, i + 1, recorded);
      assert Result(migrations, after) == MigrateFrom(migrations, i + 1, recorded);
    }
  }

  /** The machine run to its end computes the result of the uninterrupted Open, for every database. */
  lemma {:induction false} StatementsReachResult(migrations: seq<Migration>, m: Machine, k: nat)
    requires AtIndex(migrations, m) && Outside(migrations, m) && Remaining(migrations, m) <= k
    ensures After(migrations, m, Statements(k)) == Machine(Result(migrations, m).0, None, Finished(Result(migrations, m).1))
    decreases Remaining(migrations, m)
  {
    hide After;
    hide Execute;
    if m.point.Finished? {
      StaysFinished(migrations, m, k);
    } else {
      var taken, next := 1, Execute(migrations, m);
      if m.point.BeginTx? {
        taken := TransactionLength(migrations, m);
        next := OutsideTransaction(migrations, m);
      } else {
        OutsideStep(migrations, m);
        OneStatement(migrations, m);
      }
      SplitStatements(migrations, m, taken, k - taken);
      StatementsReachResult(migrations, next, k - taken);
    }
  }

  const STATEMENTS_OUTSIDE: nat := 7

  /** Without interruption every Open ends, after a number of statements that only the migrations bound. */
  lemma OpenFinishes(migrations: seq<Migration>, s: Schema, k: nat)
    requires k >= 5 * |migrations| + STATEMENTS_OUTSIDE
    ensures var (result, outcome) := OpenResult(migrations, s);
            After(migrations, Start(s), Statements(k)) == Machine(result, None, Finished(outcome))
  {
    StatementsReachResult(migrations, Start(s), k);
  }

  /** Any crashes, then one Open left alone: every migration is committed exactly once, in order. */
  lemma CrashesThenOneOpen(migrations: seq<Migration>, s: Schema, crashes: seq<Event>, k: nat)
    requires StrictlyIncreasing(Names(migrations)) && Healthy(migrations, s)
    requires k >= 5 * |migrations| + STATEMENTS_OUTSIDE
    ensures After(migrations, Start(After(migrations, Start(s), crashes).durable), Statements(k))
         == Machine(Stage(migrations, |migrations|, true), None, Finished(Opened))
         == After(migrations, Start(s), Statements(k))
  {
    var left := After(migrations, Start(s), crashes).durable;
    CrashesAreHarmless(migrations, s, crashes);
    OpenFinishes(migrations, left, k);
    OpenFinishes(migrations, s, k);
    OpenRunsWhatIsMissing(migrations, left);
    OpenRunsWhatIsMissing(migrations, s);
  }

  /** On a complete database no run changes anything: a further Open, crashing or not, only reads. */
  lemma FurtherOpensChangeNothing(migrations: seq<Migration>, events: seq<Event>)
    requires StrictlyIncreasing(Names(migrations))
    ensures After(migrations, Start(Stage(migrations, |migrations|, true)), events).durable == Stage(migrations, |migrations|, true)
  {
    var n := RunKeepsInv(migrations, Start(Stage(migrations, |migrations|, true)), |migrations|, events);
    TableStays(migrations, Start(Stage(migrations, |migrations|, true)), events);
  }

  lemma {:induction false} TableStays(migrations: seq<Migration>, m: Machine, events: seq<Event>)
    requires AtIndex(migrations, m) && m.durable.tableExists && (m.transaction.Some? ==> m.transaction.value.tableExists)
    ensures var after := After(migrations, m, events);
            after.durable.tableExists && (after.transaction.Some? ==> after.transaction.value.tableExists)
  {
    if events != [] {
      TableStays(migrations, m, events[..|events| - 1]);
    }
  }

  /** A history that is not a checksummed prefix is never written to, and every Open that ends refuses it. */
  lemma {:induction false} RejectedHistoryIsUntouched(migrations: seq<Migration>, s: Schema, events: seq<Event>)
    requires !IsPrefixHistory(migrations, Applied(s))
    ensures var m := After(migrations, Start(s), events);
            && m.durable == s && m.transaction == None
            && (m.point.Pragma? || m.point.InspectTable? || (m.point.ReadHistory? && s.tableExists) || m.point == Finished(Refused))
  {
    hide IsPrefixHistory;
    hide InNameOrder;
    if events != [] {
      RejectedHistoryIsUntouched(migrations, s, events[..|events| - 1]);
    }
  }

  /** An upgrade accepts what the older program left, at any point of its runs. */
  lemma UpgradesAreHealthy(migrations: seq<Migration>, more: seq<Migration>, s: Schema)
    requires StrictlyIncreasing(Names(migrations + more)) && Healthy(migrations, s)
    ensures Healthy(migrations + more, s)
  {
    var n := |Applied(s)|;
    assert (migrations + more)[..n] == migrations[..n];
  }

  /** A downgrade is refused as a future schema as soon as one newer migration is recorded. */
  lemma DowngradesAreRefused(migrations: seq<Migration>, more: seq<Migration>, s: Schema)
    requires StrictlyIncreasing(Names(migrations + more)) && Healthy(migrations + more, s)
    requires migrations != [] && |migrations| < |s.rows|
    ensures OpenResult(migrations, s) == (s, Refused) && AfterEveryKnown(migrations, Applied(s))
  {
    var all := migrations + more;
    HealthyIffStage(all, s);
    var n := |s.rows|;
    RowsOfKnown(all, n);
    assert Applied(s) == RecordsOf(all[..n]);
    var last := |migrations| - 1;
    assert Names(all)[last] == migrations[last].name && Names(all)[n - 1] == CurrentApplied(Applied(s));
  }

  /** The uninterrupted continuation from a point outside a transaction. */
  function Result(migrations: seq<Migration>, m: Machine): (Schema, Outcome)
    requires AtIndex(migrations, m)
  {
    match m.point
    case ReadChecksum(i) => MigrateFrom(migrations, i, m.durable)
    case BeginTx(i) => MigrateFrom(migrations, i, m.durable)
    case CreateTable => MigrateFrom(migrations, 0, EnsureTable(m.durable))
    case Finished(outcome) => (m.durable, outcome)
    case _ => OpenResult(migrations, m.durable)
  }

  /** BEGIN, the migration's SQL, the row and COMMIT, or three statements when the row is already there. */
  lemma TransactionRuns(migrations: seq<Migration>, m: Machine) returns (after: Machine)
    requires AtIndex(migrations, m) && m.transaction == None && m.point.BeginTx?
    ensures after == After(migrations, m, Statements(TransactionLength(migrations, m)))
    ensures var i, conflict := m.point.i, migrations[m.point.i].name in m.durable.rows;
            after == if conflict then Machine(m.durable, None, Finished(MigrationFailed))
                     else Machine(Recorded(m.durable, migrations[i]), None, NextMigration(migrations, i + 1))
  {
    hide Checksum;
    var m1 := Execute(migrations, m);
    var m2 := Execute(migrations, m1);
    after := Execute(migrations, m2);
    assert After(migrations, m, Statements(1)) == m1 by { OneStatement(migrations, m); }
    assert After(migrations, m, Statements(2)) == m2 by { assert Statements(2)[..1] == Statements(1); }
    assert After(migrations, m, Statements(3)) == after by { assert Statements(3)[..2] == Statements(2); }
    if migrations[m.point.i].name !in m.durable.rows {
      var m3 := after;
      after := Execute(migrations, m3);
      assert After(migrations, m, Statements(4)) == after by { assert Statements(4)[..3] == Statements(3); }
    }
  }

  function TransactionLength(migrations: seq<Migration>, m: Machine): nat
    requires AtIndex(migrations, m) && m.point.BeginTx?
  {
    if migrations[m.point.i].name in m.durable.rows then 3 else 4
  }

  lemma OneStatement(migrations: seq<Migration>, m: Machine)
    requires AtIndex(migrations, m)
    ensures After(migrations, m, Statements(1)) == Execute(migrations, m)
  {
    assert Statements(1)[..0] == [];
  }

  lemma {:induction false} SplitStatements(migrations: seq<Migration>, m: Machine, a: nat, b: nat)
    requires AtIndex(migrations, m)
    ensures After(migrations, m, Statements(a + b)) == After(migrations, After(migrations, m, Statements(a)), Statements(b))
  {
    if b == 0 {
      assert Statements(a + b) == Statements(a);
    } else {
      SplitStatements(migrations, m, a, b - 1);
      assert Statements(a + b)[..a + b - 1] == Statements(a + (b - 1)) && Statements(b)[..b - 1] == Statements(b - 1);
    }
  }

  lemma {:induction false} StaysFinished(migrations: seq<Migration>, m: Machine, k: nat)
    requires AtIndex(migrations, m) && m.point.Finished?
    ensures After(migrations, m, Statements(k)) == m
  {
    if k > 0 {
      StaysFinished(migrations, m, k - 1);
      assert Statements(k)[..k - 1] == Statements(k - 1);
    }
  }

  // ---------------------------------------------------------------- the methods

  /** Every migration is recorded with its checksum. */
  predicate AllCurrent(migrations: seq<Migration>, s: Schema)
  {
    forall i | 0 <= i < |migrations| ::
      migrations[i].name in s.rows && s.rows[migrations[i].name] == Checksum(migrations[i])
  }

  /** The startup check and the report agree, but for rows of migrations that the program does not know. */
  lemma CurrentIffReportedOk(migrations: seq<Migration>, s: Schema)
    requires StrictlyIncreasing(Names(migrations)) && s.tableExists
    ensures Applied(s) == RecordsOf(migrations)
       <==> AllCurrent(migrations, s) && forall name | name in s.rows :: name in Names(migrations)
  {
    InNameOrderLists(s.rows);
    assert migrations[..|migrations|] == migrations;
    RowsOfKnown(migrations, |migrations|);
    KnownSoFar(migrations, |migrations|);
    if Applied(s) == RecordsOf(migrations) {
      SameRows(s.rows, Known(migrations));
      forall name | name in s.rows ensures name in Names(migrations) {
        KnownLooksUp(migrations, name);
      }
    }
    if AllCurrent(migrations, s) && forall name | name in s.rows :: name in Names(migrations) {
      forall name: string ensures name in s.rows <==> name in Known(migrations)
        ensures name in s.rows && name in Known(migrations) ==> s.rows[name] == Known(migrations)[name]
      {
        KnownLooksUp(migrations, name);
        assert name in Names(migrations) ==> exists i :: 0 <= i < |migrations| && migrations[i].name == name;
      }
      assert s.rows == Known(migrations);
    }
  }

  class SchemaDatabase {
    var tableExists: bool
    var rows: map<string, string>
    var committed: seq<string>

    ghost function State(): Schema
      reads this
    {
      Schema(tableExists, rows, committed)
    }

    method AppliedMigrationRecords() returns (applied: seq<Record>)
      ensures applied == Applied(State())
    {
      applied := [];
      if tableExists {
        var selected := InNameOrder(rows);
        for i := 0 to |selected|
          invariant applied == selected[..i]
        {
          applied := applied + [selected[i]];
        }
      }
    }

    method EnsureMigrationTable()
      modifies this
      ensures State() == EnsureTable(old(State()))
    {
      if !tableExists {
        tableExists, rows := true, map[];
      }
    }

    method AppliedMigration(name: string) returns (checksum: string)
      ensures checksum == StoredChecksum(State(), name)
    {
      checksum := "";
      if name in rows {
        checksum := rows[name];
      }
    }

    /** The SQL and its row are committed together or, on a conflicting row, not at all. */
    method RunMigration(migration: Migration) returns (ok: bool)
      modifies this
      ensures ok <==> migration.name !in old(rows) || old(rows)[migration.name] == Checksum(migration)
      ensures State() == if migration.name in old(rows) then old(State()) else Recorded(old(State()), migration)
    {
      var applied := AppliedMigration(migration.name);
      if applied != "" {
        return Checksum(migration) == applied;
      }
      var txCommitted := committed + [migration.sql];
      if migration.name in rows {
        return false;
      }
      committed, rows := txCommitted, rows[migration.name := Checksum(migration)];
      ok := true;
    }

    method RunMigrations(migrations: seq<Migration>) returns (ok: bool)
      modifies this
      ensures (State(), if ok then Opened else MigrationFailed) == MigrateFrom(migrations, 0, EnsureTable(old(State())))
    {
      EnsureMigrationTable();
      ghost var start := State();
      for i := 0 to |migrations|
        invariant MigrateFrom(migrations, i, State()) == MigrateFrom(migrations, 0, start)
      {
        var ran := RunMigration(migrations[i]);
        if !ran {
          return false;
        }
      }
      ok := true;
    }

    method CheckMigrationsCurrent(migrations: seq<Migration>) returns (ok: bool)
      modifies this
      ensures State() == EnsureTable(old(State()))
      ensures ok <==> AllCurrent(migrations, State())
    {
      EnsureMigrationTable();
      ghost var ensured := State();
      for i := 0 to |migrations|
        invariant State() == ensured
        invariant forall k | 0 <= k < i ::
                    migrations[k].name in rows && rows[migrations[k].name] == Checksum(migrations[k])
      {
        var applied := AppliedMigration(migrations[i].name);
        if applied == "" || applied != Checksum(migrations[i]) {
          return false;
        }
      }
      ok := true;
    }

    /** The compatibility check first; only an accepted history is migrated. */
    method Open(migrations: seq<Migration>) returns (outcome: Outcome)
      requires StrictlyIncreasing(Names(migrations))
      modifies this
      ensures (State(), outcome) == OpenResult(migrations, old(State()))
      ensures Healthy(migrations, old(State())) ==> outcome == Opened && State() == Stage(migrations, |migrations|, true)
      ensures outcome == Refused ==> State() == old(State())
    {
      OpenRunsWhatIsMissing(migrations, State());
      var applied := AppliedMigrationRecords();
      InNameOrderLists(rows);
      var _, accepted := CheckSchemaCompatibility(migrations, applied);
      if !accepted {
        return Refused;
      }
      var ok := RunMigrations(migrations);
      outcome := if ok then Opened else MigrationFailed;
    }
  }

  // ---------------------------------------------------------------- the shipped migrations

  /** The names of InitialMigrations, in order. */
  const INITIAL_NAMES: seq<string> := [
    "0001_foundation",
    "0002_capability_audit_fields",
    "0003_session_last_seen",
    "0004_audit_events_read_capability",
    "0005_jobs_foundation",
    "0006_job_approval_fields",
    "0007_job_worker_fields",
    "0008_observability_metrics_read_capability",
    "0009_identity_magic_tokens"
  ]

  /** The shipped list meets what the compatibility check needs of it. */
  lemma InitialNamesIncrease()
    ensures StrictlyIncreasing(INITIAL_NAMES)
  {
    var digits := "123456789";
    forall i | 0 <= i < |INITIAL_NAMES|
      ensures |INITIAL_NAMES[i]| > 3 && INITIAL_NAMES[i][..3] == "000" && INITIAL_NAMES[i][3] == digits[i]
    {
      var name := INITIAL_NAMES[i];
      assert name[0] == '0' && name[1] == '0' && name[2] == '0' && name[3] == digits[i];
    }
    forall i, j | 0 <= i < j < |INITIAL_NAMES| ensures Less(INITIAL_NAMES[i], INITIAL_NAMES[j]) {
      assert digits[i] < digits[j];
      DifferenceDecides(INITIAL_NAMES[i], INITIAL_NAMES[j], 3);
    }
  }
}
