/** The migration runner: the ledger check, and one transaction per migration.

    SHA-256 is treated as injective, so a ledger row keeps the migration's text in place of
    its checksum.  The committed database is the ledger in commit order together with the
    history of statements that took effect. */
module MigrationLedger {
  import opened Wrappers
  import SqlSplit

  datatype Migration = Migration(version: int, name: string, sql: string)

  datatype Row = Row(version: int, name: string, checksum: string)

  datatype Db = Db(hasTable: bool, ledger: seq<Row>, schema: seq<string>)

  datatype Plan = Plan(pending: seq<string>, applied: seq<string>)

  datatype Error = Drift | Failed

  function RowOf(m: Migration): Row {
    Row(m.version, m.name, m.sql)
  }

  function Rows(p: seq<Migration>): seq<Row> {
    seq(|p|, i requires 0 <= i < |p| => RowOf(p[i]))
  }

  /** What a fully applied migration does to the schema. */
  function Statements(checksum: string): seq<string> {
    SqlSplit.Split(checksum)
  }

  /** The effects of the recorded migrations, each once and whole, in commit order. */
  function Effects(ledger: seq<Row>): seq<string> {
    if ledger == [] then []
    else Effects(ledger[..|ledger| - 1]) + Statements(ledger[|ledger| - 1].checksum)
  }

  /** Discovered packages are sorted by version and repeat none. */
  predicate Increasing(p: seq<Migration>) {
    forall i, j | 0 <= i < j < |p| :: p[i].version < p[j].version
  }

  /** A version is recorded at most once: the ledger's primary key. */
  predicate PrimaryKey(ledger: seq<Row>) {
    forall i, j | 0 <= i < j < |ledger| :: ledger[i].version != ledger[j].version
  }

  function RowFor(ledger: seq<Row>, version: int): (r: Option<Row>)
    ensures r.Some? ==> r.value in ledger && r.value.version == version
    ensures r.None? ==> forall i | 0 <= i < |ledger| :: ledger[i].version != version
  {
    if ledger == [] then None
    else if ledger[0].version == version then Some(ledger[0])
    else RowFor(ledger[1..], version)
  }

  predicate Recorded(ledger: seq<Row>, version: int) {
    RowFor(ledger, version).Some?
  }

  // ----- the ledger check -----

  /** Some recorded row is unknown to the package or was recorded under another name or text. */
  predicate Drifted(ledger: seq<Row>, p: seq<Migration>) {
    exists i :: 0 <= i < |ledger| && ledger[i] !in Rows(p)
  }

  /** The migrations of the package whose being recorded is `recorded`, in package order. */
  function Select(p: seq<Migration>, ledger: seq<Row>, recorded: bool): (q: seq<Migration>)
    ensures forall m | m in q :: m in p && Recorded(ledger, m.version) == recorded
  {
    if p == [] then []
    else
      var q := Select(p[..|p| - 1], ledger, recorded);
      var last := p[|p| - 1];
      if Recorded(ledger, last.version) == recorded then q + [last] else q
  }

  function Names(p: seq<Migration>): seq<string> {
    seq(|p|, i requires 0 <= i < |p| => p[i].name)
  }

  function PlanOf(ledger: seq<Row>, p: seq<Migration>): Plan {
    Plan(Names(Select(p, ledger, false)), Names(Select(p, ledger, true)))
  }

  lemma {:induction false} SelectFromEmpty(p: seq<Migration>)
    ensures Select(p, [], false) == p && Select(p, [], true) == []
  {
    if p != [] {
      SelectFromEmpty(p[..|p| - 1]);
    }
  }

  lemma InPackage(p: seq<Migration>, row: Row)
    ensures row in Rows(p) <==> exists k :: 0 <= k < |p| && RowOf(p[k]) == row
  {
    if row in Rows(p) {
      var k :| 0 <= k < |p| && Rows(p)[k] == row;
    }
    if k :| 0 <= k < |p| && RowOf(p[k]) == row {
      assert Rows(p)[k] == row;
    }
  }

  lemma InPackageExactly(p: seq<Migration>, row: Row)
    ensures row in Rows(p) <==> exists m | m in p ::
              m.version == row.version && m.name == row.name && m.sql == row.checksum
  {
    hide Rows;
    InPackage(p, row);
    if row in Rows(p) {
      var k :| 0 <= k < |p| && RowOf(p[k]) == row;
      assert p[k] in p;
    }
    if m :| m in p && m.version == row.version && m.name == row.name && m.sql == row.checksum {
      var k :| 0 <= k < |p| && p[k] == m;
      assert RowOf(p[k]) == row;
    }
  }

  /** The ledger has drifted iff it has a row that agrees with no migration of the package in
      version, name and text. */
  lemma DriftedExactly(ledger: seq<Row>, p: seq<Migration>)
    ensures Drifted(ledger, p) <==>
              exists row | row in ledger :: forall m | m in p ::
                m.version != row.version || m.name != row.name || m.sql != row.checksum
  {
    hide Rows, RowOf;
    if Drifted(ledger, p) {
      var i :| 0 <= i < |ledger| && ledger[i] !in Rows(p);
      InPackageExactly(p, ledger[i]);
      assert ledger[i] in ledger;
    }
    if row :| row in ledger && forall m | m in p ::
        m.version != row.version || m.name != row.name || m.sql != row.checksum {
      InPackageExactly(p, row);
      var i :| 0 <= i < |ledger| && ledger[i] == row;
    }
  }

  function ByVersion(p: seq<Migration>): map<int, Migration>
    requires Increasing(p)
  {
    map i | 0 <= i < |p| :: p[i].version := p[i]
  }

  lemma NoneDrifted(ledger: seq<Row>, p: seq<Migration>)
    requires forall k | 0 <= k < |ledger| :: ledger[k] in Rows(p)
    ensures !Drifted(ledger, p)
  {
    hide Rows;
  }

  lemma RowChecked(p: seq<Migration>, ledger: seq<Row>, i: nat, byVersion: map<int, Migration>)
    requires Increasing(p) && i < |ledger| && byVersion == ByVersion(p)
    ensures var row := ledger[i];
            if row.version in byVersion && row.name == byVersion[row.version].name
               && row.checksum == byVersion[row.version].sql then row in Rows(p)
            else Drifted(ledger, p)
  {
    hide Rows;
    InPackage(p, ledger[i]);
  }

  lemma RecordedExactly(ledger: seq<Row>, version: int)
    ensures Recorded(ledger, version) <==> exists row | row in ledger :: row.version == version
  {
    hide RowFor;
    if Recorded(ledger, version) { assert RowFor(ledger, version).value in ledger; }
  }

  /** `at` are the positions of `q` in the package, in order, and no others are recorded as `recorded`. */
  ghost predicate PositionsOf(q: seq<Migration>, p: seq<Migration>, ledger: seq<Row>, recorded: bool, at: seq<nat>) {
    && |at| == |q|
    && (forall j, k | 0 <= j < k < |at| :: at[j] < at[k])
    && (forall j | 0 <= j < |at| :: at[j] < |p| && q[j] == p[at[j]])
    && (forall k | 0 <= k < |p| ::
          k in at <==> ((exists row | row in ledger :: row.version == p[k].version) <==> recorded))
  }

  /** What is selected are the migrations whose version is recorded, or is not, in package order. */
  lemma {:induction false} SelectExactly(p: seq<Migration>, ledger: seq<Row>, recorded: bool) returns (at: seq<nat>)
    ensures PositionsOf(Select(p, ledger, recorded), p, ledger, recorded, at)
  {
    hide Recorded;
    at := [];
    if p != [] {
      var n := |p| - 1;
      at := SelectExactly(p[..n], ledger, recorded);
      RecordedExactly(ledger, p[n].version);
      NextPosition(Select(p[..n], ledger, recorded), p, ledger, recorded, at);
      if Recorded(ledger, p[n].version) == recorded { at := at + [n]; }
    }
  }

  lemma NextPosition(q: seq<Migration>, p: seq<Migration>, ledger: seq<Row>, recorded: bool, at: seq<nat>)
    requires p != [] && PositionsOf(q, p[..|p| - 1], ledger, recorded, at)
    ensures var n := |p| - 1;
            if (exists row | row in ledger :: row.version == p[n].version) <==> recorded
            then PositionsOf(q + [p[n]], p, ledger, recorded, at + [n])
            else PositionsOf(q, p, ledger, recorded, at)
  {
    var n := |p| - 1;
    assert forall k | 0 <= k < n :: p[..n][k] == p[k];
    assert forall j | 0 <= j < |at| :: at[j] < n;
  }

  lemma RowForOnly(ledger: seq<Row>, m: Migration)
    requires PrimaryKey(ledger)
    ensures RowOf(m) in ledger <==> RowFor(ledger, m.version) == Some(RowOf(m))
  {
  }

  lemma StatementsAre(sql: string)
    ensures Statements(sql) == SqlSplit.Split(sql)
  {
  }

  lemma PrimaryKeyNext(ledger: seq<Row>, row: Row)
    requires PrimaryKey(ledger) && !Recorded(ledger, row.version)
    ensures PrimaryKey(ledger + [row])
  {
  }

  class Database {
    var hasTable: bool
    var ledger: seq<Row>
    var schema: seq<string>

    ghost function State(): Db
      reads this
    {
      Db(hasTable, ledger, schema)
    }

    /** Without the ledger table there are no rows, and the primary key holds. */
    ghost predicate Valid()
      reads this
    {
      PrimaryKey(ledger) && (!hasTable ==> ledger == [])
    }

    /** Validates every recorded row against the package, changing nothing. */
    method Inspect(p: seq<Migration>) returns (r: Result<Plan, Error>)
      requires Valid() && Increasing(p)
      ensures r == if Drifted(ledger, p) then Err(Drift) else Ok(PlanOf(ledger, p))
      ensures r.Err? <==>
                exists row | row in ledger :: forall m | m in p ::
                  m.version != row.version || m.name != row.name || m.sql != row.checksum
    {
      hide Drifted, Rows, PrimaryKey, Select, Increasing, ByVersion;
      DriftedExactly(ledger, p);
      if !hasTable {
        NoneDrifted(ledger, p);
        SelectFromEmpty(p);
        assert Names([]) == [];
        return Ok(Plan(Names(p), []));
      }
      var byVersion := ByVersion(p);
      var i := 0;
      while i < |ledger|
        invariant 0 <= i <= |ledger|
        invariant forall k | 0 <= k < i :: ledger[k] in Rows(p)
      {
        var row := ledger[i];
        RowChecked(p, ledger, i, byVersion);
        if row.version !in byVersion { return Err(Drift); }
        var migration := byVersion[row.version];
        if row.name != migration.name || row.checksum != migration.sql { return Err(Drift); }
        i := i + 1;
      }
      NoneDrifted(ledger, p);
      return Ok(Plan(Names(Select(p, ledger, false)), Names(Select(p, ledger, true))));
    }

    /** One migration and its ledger row in one transaction.  `failAt` is the operation at
        which the database reports an error: a statement of the migration, or the insert. */
    method ApplyOne(m: Migration, failAt: nat) returns (r: Result<bool, Error>)
      requires Valid() && hasTable
      modifies this
      ensures Valid() && hasTable
      ensures Recorded(old(ledger), m.version) || r.Err? ==> State() == old(State())
      ensures Recorded(old(ledger), m.version) ==>
                r == if RowOf(m) in old(ledger) then Ok(false) else Err(Drift)
      ensures !Recorded(old(ledger), m.version) ==>
                r == if failAt <= |Statements(m.sql)| then Err(Failed) else Ok(true)
      ensures r == Ok(true) ==>
                && ledger == old(ledger) + [RowOf(m)]
                && schema == old(schema) + Statements(m.sql)
    {
      hide PrimaryKey, RowFor, Statements, SqlSplit.InPlace;
      RowForOnly(ledger, m);
      StatementsAre(m.sql);
      var row := RowFor(ledger, m.version);
      if row.Some? {
        if row.value.name != m.name || row.value.checksum != m.sql { return Err(Drift); }
        return Ok(false);
      }
      var statements := SqlSplit.SplitSql(m.sql);
      var uncommitted := schema;
      for i := 0 to |statements|
        invariant uncommitted == schema + statements[..i]
        invariant failAt >= i
      {
        if failAt == i { return Err(Failed); }
        uncommitted := uncommitted + [statements[i]];
      }
      if failAt == |statements| { return Err(Failed); }
      assert statements[..|statements|] == statements;
      PrimaryKeyNext(ledger, RowOf(m));
      ledger, schema := ledger + [RowOf(m)], uncommitted;
      return Ok(true);
    }

    /** The whole run: check, create the table, then every migration in version order.
        Drift is rejected before anything changes.  Otherwise the pending migrations are
        committed up to the first fault; without faults it is all of them, as the check
        announced.  The run is one of the applier's (`trail`). */
    method ApplyMigrations(p: seq<Migration>, failAt: nat -> nat) returns (r: Result<Plan, Error>,
                                                                           ghost trail: seq<Point>)
      requires Valid() && Increasing(p)
      modifies this
      ensures Valid()
      ensures Drifted(old(ledger), p) <==>
                exists row | row in old(ledger) :: forall m | m in p ::
                  m.version != row.version || m.name != row.name || m.sql != row.checksum
      ensures Drifted(old(ledger), p) ==> r == Err(Drift) && State() == old(State())
      ensures !Drifted(old(ledger), p) ==>
                && hasTable
                && (exists n: nat ::
                      && n <= |p| && FaultAt(p, old(ledger), failAt, n)
                      && Select(p[..n], old(ledger), false) <= Select(p, old(ledger), false)
                      && ledger == old(ledger) + Rows(Select(p[..n], old(ledger), false))
                      && schema == old(schema) + Effects(Rows(Select(p[..n], old(ledger), false)))
                      && (if n == |p| then r == Ok(PlanOf(old(ledger), p)) else r == Err(Failed)))
      ensures !Drifted(old(ledger), p) && (forall i: nat | i < |p| :: failAt(i) > |Statements(p[i].sql)|) ==>
                r == Ok(PlanOf(old(ledger), p))
      ensures Trail(p, trail) && trail[0] == Point(old(State()), Idle)
      ensures trail[|trail| - 1] == Point(State(), if r.Ok? then Done else Stopped)
    {
      hide Statements, Effects, Select, RowFor, Rows, Next, Drifted, Names, Increasing, Progressed, FaultAt, PlanOf,
           Survives;
      DriftedExactly(ledger, p);
      trail := [Point(State(), Idle)];
      var plan := Inspect(p);
      if plan.Err? {
        trail := Stop(p, trail);
        return Err(plan.error), trail;
      }
      trail := Begin(p, trail);
      hasTable := true;
      var applied: seq<string>, skipped: seq<string> := [], [];
      ghost var was, base := ledger, schema;
      NothingProgressed(p, was, base, failAt);
      for i := 0 to |p|
        invariant Valid() && hasTable
        invariant Progressed(p, was, base, failAt, i, ledger, schema, applied, skipped)
        invariant Trail(p, trail) && trail[0] == Point(old(State()), Idle)
                  && trail[|trail| - 1] == Point(State(), Ready(i))
      {
        StillPending(p, was, base, failAt, i, ledger, schema, applied, skipped);
        ProgressNext(p, was, base, failAt, i, ledger, schema, applied, skipped);
        var one := ApplyOne(p[i], failAt(i));
        if one.Err? {
          ProgressStops(p, was, base, failAt, i, ledger, schema, applied, skipped);
          trail := Stop(p, trail);
          return Err(one.error), trail;
        }
        if one.value {
          applied := applied + [p[i].name];
          trail := CommitTrail(p, i, trail);
        } else {
          skipped := skipped + [p[i].name];
          trail := SkipTrail(p, i, trail);
        }
      }
      ProgressStops(p, was, base, failAt, |p|, ledger, schema, applied, skipped);
      trail := Finish(p, trail);
      return Ok(Plan(applied, skipped)), trail;
    }
  }

  /** The migration is recorded already, or meets no fault. */
  predicate Survives(p: seq<Migration>, was: seq<Row>, failAt: nat -> nat, i: nat)
    requires i < |p|
  {
    Recorded(was, p[i].version) || failAt(i) > |Statements(p[i].sql)|
  }

  /** The first migration that does not survive, or the end of the package. */
  ghost predicate FaultAt(p: seq<Migration>, was: seq<Row>, failAt: nat -> nat, n: nat)
    requires n <= |p|
  {
    (forall k | 0 <= k < n :: Survives(p, was, failAt, k)) && (n < |p| ==> !Survives(p, was, failAt, n))
  }

  /** The loop of the runner after its first `i` migrations, none of which met a fault. */
  ghost predicate Progressed(p: seq<Migration>, was: seq<Row>, base: seq<string>, failAt: nat -> nat, i: nat,
                             ledger: seq<Row>, schema: seq<string>, applied: seq<string>, skipped: seq<string>)
    requires i <= |p|
  {
    var done := Select(p[..i], was, false);
    && ledger == was + Rows(done) && schema == base + Effects(Rows(done))
    && applied == Names(done) && skipped == Names(Select(p[..i], was, true))
    && forall k | 0 <= k < i :: Survives(p, was, failAt, k)
  }

  lemma NothingProgressed(p: seq<Migration>, was: seq<Row>, base: seq<string>, failAt: nat -> nat)
    ensures Progressed(p, was, base, failAt, 0, was, base, [], [])
  {
    assert Rows([]) == [] && was + [] == was && base + [] == base;
  }

  /** A recorded migration is skipped, another one committed. */
  lemma ProgressNext(p: seq<Migration>, was: seq<Row>, base: seq<string>, failAt: nat -> nat, i: nat,
                     ledger: seq<Row>, schema: seq<string>, applied: seq<string>, skipped: seq<string>)
    requires i < |p| && Progressed(p, was, base, failAt, i, ledger, schema, applied, skipped)
    ensures Recorded(was, p[i].version) ==> Progressed(p, was, base, failAt, i + 1, ledger, schema, applied, skipped
                                                       + [p[i].name])
    ensures !Recorded(was, p[i].version) && failAt(i) > |Statements(p[i].sql)| ==>
              Progressed(p, was, base, failAt, i + 1, ledger + [RowOf(p[i])], schema + Statements(p[i].sql), applied
                         + [p[i].name], skipped)
  {
    hide Statements, RowFor, Rows, Effects, Names, Recorded;
    assert p[..i + 1][..i] == p[..i];
    EffectsNext(Select(p[..i], was, false), p[i]);
    EffectsNext(Select(p[..i], was, true), p[i]);
    assert Select(p[..i], was, false) + [] == Select(p[..i], was, false);
    assert Select(p[..i], was, true) + [] == Select(p[..i], was, true);
  }

  lemma EffectsNext(done: seq<Migration>, m: Migration)
    ensures Rows(done + [m]) == Rows(done) + [RowOf(m)] && Names(done + [m]) == Names(done) + [m.name]
    ensures Effects(Rows(done + [m])) == Effects(Rows(done)) + Statements(m.sql)
  {
    hide Statements;
    assert Rows(done + [m])[..|done|] == Rows(done);
  }

  lemma {:induction false} SelectPrefix(p: seq<Migration>, ledger: seq<Row>, recorded: bool, n: nat)
    requires n <= |p|
    ensures Select(p[..n], ledger, recorded) <= Select(p, ledger, recorded)
  {
    if n == |p| {
      assert p[..n] == p;
    } else {
      assert p[..|p| - 1][..n] == p[..n];
      SelectPrefix(p[..|p| - 1], ledger, recorded, n);
    }
  }

  lemma ProgressStops(p: seq<Migration>, was: seq<Row>, base: seq<string>, failAt: nat -> nat, i: nat,
                      ledger: seq<Row>, schema: seq<string>, applied: seq<string>, skipped: seq<string>)
    requires i <= |p| && Progressed(p, was, base, failAt, i, ledger, schema, applied, skipped)
    ensures i == |p| || (!Recorded(was, p[i].version) && failAt(i) <= |Statements(p[i].sql)|) ==>
              FaultAt(p, was, failAt, i)
    ensures ledger == was + Rows(Select(p[..i], was, false))
            && schema == base + Effects(Rows(Select(p[..i], was, false)))
    ensures Select(p[..i], was, false) <= Select(p, was, false)
    ensures i == |p| ==> Plan(applied, skipped) == PlanOf(was, p)
  {
    hide Statements, RowFor, Rows, Effects, Names, Recorded, Select;
    SelectPrefix(p, was, false, i);
    assert p[..|p|] == p;
  }

  lemma EarlierVersions(p: seq<Migration>, was: seq<Row>, i: nat)
    requires i < |p| && Increasing(p)
    ensures forall m | m in Select(p[..i], was, false) :: m.version < p[i].version
  {
    forall m | m in Select(p[..i], was, false) ensures m.version < p[i].version {
      var j :| 0 <= j < i && p[..i][j] == m;
    }
  }

  /** Earlier migrations of the run do not make a later one look recorded. */
  lemma StillPending(p: seq<Migration>, was: seq<Row>, base: seq<string>, failAt: nat -> nat, i: nat,
                     ledger: seq<Row>, schema: seq<string>, applied: seq<string>, skipped: seq<string>)
    requires i < |p| && Progressed(p, was, base, failAt, i, ledger, schema, applied, skipped)
    requires Increasing(p) && !Drifted(was, p)
    ensures Recorded(ledger, p[i].version) <==> Recorded(was, p[i].version)
    ensures Recorded(was, p[i].version) ==> RowOf(p[i]) in ledger
  {
    hide Statements, Effects, Names, Survives, Select;
    var done := Select(p[..i], was, false);
    EarlierVersions(p, was, i);
    if Recorded(was, p[i].version) {
      var row := RowFor(was, p[i].version).value;
      var k :| 0 <= k < |was| && was[k] == row;
      assert ledger[k] == row;
      InPackage(p, row);
      var j :| 0 <= j < |p| && RowOf(p[j]) == row;
      assert j == i;
    } else {
      forall k | 0 <= k < |ledger| ensures ledger[k].version != p[i].version {
        if k >= |was| {
          assert done[k - |was|] in done;
          assert ledger[k] == RowOf(done[k - |was|]);
        }
      }
    }
  }

  // ----- several appliers at once -----

  /** Where one invocation of the runner is.  `InTxn` holds what the open transaction has
      run so far; nothing of it is visible to the others before it commits. */
  datatype Applier =
    | Idle
    | Checked
    | Ready(pos: nat)
    | InTxn(pos: nat, ran: seq<string>)
    | Done
    | Stopped

  datatype System = System(db: Db, appliers: seq<Applier>)

  function Commit(db: Db, m: Migration): Db {
    db.(ledger := db.ledger + [RowOf(m)], schema := db.schema + Statements(m.sql))
  }

  /** What applier `a`, running package `p`, can do next.  A fault or crash is possible at any
      point and rolls back whatever transaction is open; a stopped invocation may be rerun. */
  ghost predicate Next(p: seq<Migration>, db: Db, a: Applier, db': Db, a': Applier) {
    || (db' == db && a' == Stopped)
    || (a in {Idle, Done, Stopped} && db' == db && a' == if Drifted(db.ledger, p) then Stopped else Checked)
    || (a == Checked && db' == db.(hasTable := true) && a' == Ready(0))
    || (a == Ready(|p|) && db' == db && a' == Done)
    || (a.Ready? && a.pos < |p| && db' == db &&
        a' == var row := RowFor(db.ledger, p[a.pos].version);
              if row == None then InTxn(a.pos, [])
              else if row.value == RowOf(p[a.pos]) then Ready(a.pos + 1) else Stopped)
    || (a.InTxn? && a.pos < |p| && |a.ran| < |Statements(p[a.pos].sql)| && db' == db &&
        a' == a.(ran := a.ran + [Statements(p[a.pos].sql)[|a.ran|]]))
    || (a.InTxn? && a.pos < |p| && a.ran == Statements(p[a.pos].sql) &&
        (if Recorded(db.ledger, p[a.pos].version)
         then db' == db && a' == Stopped  // the primary key rejects the insert
         else db' == db.(ledger := db.ledger + [RowOf(p[a.pos])], schema := db.schema + a.ran)
              && a' == Ready(a.pos + 1)))
  }

  // ----- one run of the runner is a run of the applier -----

  datatype Point = Point(db: Db, at: Applier)

  ghost predicate Trail(p: seq<Migration>, t: seq<Point>) {
    t != [] && forall j, k | 0 <= j && k == j + 1 < |t| :: Next(p, t[j].db, t[j].at, t[k].db, t[k].at)
  }

  lemma Further(p: seq<Migration>, t: seq<Point>, next: Point) returns (u: seq<Point>)
    requires Trail(p, t) && Next(p, t[|t| - 1].db, t[|t| - 1].at, next.db, next.at)
    ensures Trail(p, u) && u[0] == t[0] && u[|u| - 1] == next
  {
    hide Next;
    u := t + [next];
  }

  /** Drift found by the check, a fault or a crash: nothing of an open transaction stays. */
  lemma Stop(p: seq<Migration>, t: seq<Point>) returns (u: seq<Point>)
    requires Trail(p, t)
    ensures Trail(p, u) && u[0] == t[0] && u[|u| - 1] == Point(t[|t| - 1].db, Stopped)
  {
    u := Further(p, t, Point(t[|t| - 1].db, Stopped));
  }

  /** The check has passed and the ledger table is there. */
  lemma Begin(p: seq<Migration>, t: seq<Point>) returns (u: seq<Point>)
    requires Trail(p, t) && t[|t| - 1].at == Idle && !Drifted(t[|t| - 1].db.ledger, p)
    ensures Trail(p, u) && u[0] == t[0] && u[|u| - 1] == Point(t[|t| - 1].db.(hasTable := true), Ready(0))
  {
    hide Drifted;
    u := Further(p, t, Point(t[|t| - 1].db, Checked));
    u := Further(p, u, Point(t[|t| - 1].db.(hasTable := true), Ready(0)));
  }

  lemma Finish(p: seq<Migration>, t: seq<Point>) returns (u: seq<Point>)
    requires Trail(p, t) && t[|t| - 1].at == Ready(|p|)
    ensures Trail(p, u) && u[0] == t[0] && u[|u| - 1] == Point(t[|t| - 1].db, Done)
  {
    u := Further(p, t, Point(t[|t| - 1].db, Done));
  }

  lemma SkipTrail(p: seq<Migration>, i: nat, t: seq<Point>) returns (u: seq<Point>)
    requires Trail(p, t) && i < |p| && t[|t| - 1].at == Ready(i)
    requires PrimaryKey(t[|t| - 1].db.ledger) && RowOf(p[i]) in t[|t| - 1].db.ledger
    ensures Trail(p, u) && u[0] == t[0] && u[|u| - 1] == Point(t[|t| - 1].db, Ready(i + 1))
  {
    assert RowFor(t[|t| - 1].db.ledger, p[i].version) == Some(RowOf(p[i]));
    u := Further(p, t, Point(t[|t| - 1].db, Ready(i + 1)));
  }

  /** The open transaction has run the first `n` statements. */
  lemma {:induction false} TransactionTrail(p: seq<Migration>, i: nat, t: seq<Point>, n: nat) returns (u: seq<Point>)
    requires Trail(p, t) && i < |p| && t[|t| - 1].at == Ready(i) && !Recorded(t[|t| - 1].db.ledger, p[i].version)
    requires n <= |Statements(p[i].sql)|
    ensures Trail(p, u) && u[0] == t[0] && u[|u| - 1] == Point(t[|t| - 1].db, InTxn(i, Statements(p[i].sql)[..n]))
  {
    hide Statements, RowFor;
    if n == 0 {
      u := Further(p, t, Point(t[|t| - 1].db, InTxn(i, [])));
    } else {
      u := TransactionTrail(p, i, t, n - 1);
      u := Further(p, u, Point(t[|t| - 1].db, InTxn(i, Statements(p[i].sql)[..n])));
    }
  }

  lemma CommitTrail(p: seq<Migration>, i: nat, t: seq<Point>) returns (u: seq<Point>)
    requires Trail(p, t) && i < |p| && t[|t| - 1].at == Ready(i) && !Recorded(t[|t| - 1].db.ledger, p[i].version)
    ensures Trail(p, u) && u[0] == t[0] && u[|u| - 1] == Point(Commit(t[|t| - 1].db, p[i]), Ready(i + 1))
  {
    hide Statements, RowFor;
    u := TransactionTrail(p, i, t, |Statements(p[i].sql)|);
    assert Statements(p[i].sql)[..|Statements(p[i].sql)|] == Statements(p[i].sql);
    u := Further(p, u, Point(Commit(t[|t| - 1].db, p[i]), Ready(i + 1)));
  }

  function Alone(t: seq<Point>): seq<System> {
    seq(|t|, k requires 0 <= k < |t| => System(t[k].db, [t[k].at]))
  }

  /** What is shown for all runs of all appliers holds for it. */
  lemma TrailIsRun(p: seq<Migration>, t: seq<Point>)
    requires Trail(p, t) && t[0].at == Idle
    ensures Run([p], Alone(t))
  {
    hide Next;
    var run := Alone(t);
    forall k | 0 <= k < |run| - 1 ensures Step([p], run[k], run[k + 1]) {
      assert Next([p][0], run[k].db, run[k].appliers[0], run[k + 1].db, run[k + 1].appliers[0]);
      assert run[k + 1].appliers == run[k].appliers[0 := run[k + 1].appliers[0]];
    }
  }

  ghost predicate Step(packages: seq<seq<Migration>>, s: System, s': System) {
    && |s.appliers| == |s'.appliers| == |packages|
    && exists i ::
         && 0 <= i < |packages|
         && Next(packages[i], s.db, s.appliers[i], s'.db, s'.appliers[i])
         && s'.appliers == s.appliers[i := s'.appliers[i]]
  }

  ghost predicate Run(packages: seq<seq<Migration>>, run: seq<System>) {
    && run != []
    && |run[0].appliers| == |packages|
    && (forall i | 0 <= i < |packages| :: run[0].appliers[i] == Idle)
    && forall k | 0 <= k < |run| - 1 :: Step(packages, run[k], run[k + 1])
  }

  /** The ledger and the schema tell the same story. */
  ghost predicate Consistent(db: Db, base: seq<string>) {
    PrimaryKey(db.ledger) && db.schema == base + Effects(db.ledger)
  }

  lemma CommitConsistent(db: Db, base: seq<string>, m: Migration)
    requires Consistent(db, base) && !Recorded(db.ledger, m.version)
    ensures Consistent(Commit(db, m), base)
  {
    hide Statements;
    assert Commit(db, m).ledger[..|db.ledger|] == db.ledger;
  }

  /** Whatever packages the appliers carry and however they interleave, fail, crash and
      rerun: the committed schema is exactly the effects of the recorded migrations, each
      once and none in part, and the ledger only grows. */
  lemma {:induction false} SchemaIsLedger(packages: seq<seq<Migration>>, run: seq<System>, base: seq<string>)
    requires Run(packages, run) && Consistent(run[0].db, base)
    ensures forall k | 0 <= k < |run| :: Consistent(run[k].db, base) && run[0].db.ledger <= run[k].db.ledger
  {
    hide Statements, RowFor, Effects;
    if |run| > 1 {
      var n := |run| - 1;
      SchemaIsLedger(packages, run[..n], base);
      assert run[..n][n - 1] == run[n - 1];
      var s, s' := run[n - 1], run[n];
      assert Step(packages, s, s');
      var i :| 0 <= i < |packages| && Next(packages[i], s.db, s.appliers[i], s'.db, s'.appliers[i]);
      if s'.db.ledger != s.db.ledger {
        CommitConsistent(s.db, base, packages[i][s.appliers[i].pos]);
      }
      forall k | 0 <= k < |run|
        ensures Consistent(run[k].db, base) && run[0].db.ledger <= run[k].db.ledger
      {
        if k < n { assert run[..n][k] == run[k]; }
      }
    }
  }

  /** One fixed package: the ledger is a prefix of it, and no applier is ahead of the ledger. */
  ghost predicate InOrder(p: seq<Migration>, s: System) {
    var n := |s.db.ledger|;
    && n <= |p| && s.db.ledger == Rows(p[..n])
    && forall i | 0 <= i < |s.appliers| ::
         var a := s.appliers[i];
         && (a.Ready? || a.InTxn? ==> a.pos <= n)
         && (a.InTxn? ==> a.pos < |p|)
         && (a == Done ==> n == |p|)
  }

  /** In a prefix of the package, a version is recorded exactly when its position is. */
  lemma PrefixRecords(p: seq<Migration>, n: nat, pos: nat)
    requires Increasing(p) && n <= |p| && pos < |p|
    ensures Recorded(Rows(p[..n]), p[pos].version) <==> pos < n
  {
    var ledger := Rows(p[..n]);
    if pos < n {
      assert ledger[pos].version == p[pos].version;
    } else {
      assert forall k | 0 <= k < n :: ledger[k].version == p[k].version;
    }
  }

  lemma StepInOrder(p: seq<Migration>, packages: seq<seq<Migration>>, s: System, s': System)
    requires Increasing(p) && InOrder(p, s) && Step(packages, s, s')
    requires forall i | 0 <= i < |packages| :: packages[i] == p
    ensures InOrder(p, s')
    ensures |s.db.ledger| == |p| ==> s'.db.ledger == s.db.ledger && s'.db.schema == s.db.schema
  {
    hide Statements, RowFor, Increasing;
    var i :| 0 <= i < |packages| && Next(packages[i], s.db, s.appliers[i], s'.db, s'.appliers[i])
             && s'.appliers == s.appliers[i := s'.appliers[i]];
    var a, n := s.appliers[i], |s.db.ledger|;
    if (a.Ready? || a.InTxn?) && a.pos < |p| {
      PrefixRecords(p, n, a.pos);
      if s'.db.ledger != s.db.ledger {
        assert Rows(p[..n + 1]) == Rows(p[..n]) + [RowOf(p[n])];
      }
    }
  }

  ghost predicate SomeoneDone(s: System) {
    exists i :: 0 <= i < |s.appliers| && s.appliers[i] == Done
  }

  /** Starting from an empty ledger with one fixed package, over any interleaving of faults,
      crashes and reruns the ledger is always a prefix of the version-sorted package; an
      applier that finishes has left it complete, and from then on no run applies anything. */
  lemma {:induction false} LedgerIsPrefix(p: seq<Migration>, packages: seq<seq<Migration>>, run: seq<System>)
    requires Increasing(p) && Run(packages, run) && run[0].db.ledger == []
    requires forall i | 0 <= i < |packages| :: packages[i] == p
    ensures forall k | 0 <= k < |run| :: InOrder(p, run[k])
    ensures forall j, k | 0 <= j <= k < |run| && SomeoneDone(run[j]) ::
              run[k].db.ledger == Rows(p) && run[k].db.schema == run[j].db.schema
  {
    hide Statements, RowFor, Increasing, Next, Step;
    if |run| == 1 {
      assert p[..0] == [];
    } else {
      var n := |run| - 1;
      LedgerIsPrefix(p, packages, run[..n]);
      forall k | 0 <= k < n ensures InOrder(p, run[k]) {
        assert run[..n][k] == run[k];
      }
      StepInOrder(p, packages, run[n - 1], run[n]);
      forall j, k | 0 <= j <= k < |run| && SomeoneDone(run[j])
        ensures run[k].db.ledger == Rows(p) && run[k].db.schema == run[j].db.schema
      {
        assert p[..|p|] == p;
        if j < n {
          assert run[..n][j] == run[j] && run[..n][n - 1] == run[n - 1];
          assert run[..n][n - 1].db.ledger == Rows(p);
          if k < n { assert run[..n][k] == run[k]; }
        }
      }
    }
  }
}
