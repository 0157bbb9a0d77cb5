/**
  Start-up of the store (Daemon/db/db_manager.cpp, table_db_version.cpp): create what is
  missing, then compare the stored version with the program's and upgrade or recreate.
*/
module Startup {
  import opened Common
  import opened Sql
  import opened Companies
  import opened Tables
  import opened Ingest

  const WORD := 0x1_0000_0000

  /** Column::getUInt keeps the low 32 bits of the stored integer. */
  function LowWord(stored: int): nat {
    stored % WORD
  }

  /** The version table with at least one row: the old ones, or a new stamp. */
  function Stamped(db: Db, version: nat): Db {
    db.(version := if db.version.Some? && db.version.value != [] then db.version else Some([version]))
  }

  /** All three tables exist; those that did are untouched. */
  function Created(db: Db, version: nat): Db {
    Stamped(db, version).(companies := Fresh(db.companies), prices := Fresh(db.prices))
  }

  function Empty(enforced: bool, version: nat): Db {
    Db(Some([version]), Some(Table([], 0)), Some(Table([], 0)), enforced)
  }

  /** With enforcement on, SQLite refuses to drop companies that prices refer to. */
  predicate DropRefused(db: Db) {
    db.enforced && db.companies.Some? && References(db.prices, db.companies.value.rows)
  }

  function Recreated(db: Db, version: nat): (Db, bool) {
    if DropRefused(db) then (db.(version := None), false) else (Empty(db.enforced, version), true)
  }

  function Upgraded(db: Db, version: nat, updateWellFormed: bool): (Db, bool) {
    if db.version.None? || db.version.value == [] || version < LowWord(db.version.value[0]) then Recreated(db, version)
    else if version == LowWord(db.version.value[0]) then (db, true)
    else if updateWellFormed then (After(db, UpdateVersion(version)), true)
    else Recreated(db, version)
  }

  function Started(db: Db, version: nat, updateWellFormed: bool): (Db, bool) {
    Upgraded(Created(db, version), version, updateWellFormed)
  }

  /** A caller's test on the database as found: its version is current, missing, or older and updatable. */
  predicate Keeps(db: Db, version: nat, updateWellFormed: bool) {
    || db.version.None? || db.version.value == []
    || LowWord(db.version.value[0]) == version
    || (LowWord(db.version.value[0]) < version && updateWellFormed)
  }

  /** The statements that stamping commits, in order: the version row only if there is none. */
  function StampSteps(db: Db, version: nat): seq<Statement> {
    [CreateVersion] + (if db.version.Some? && db.version.value != [] then [] else [InsertVersion(version)])
  }

  /** The statements that creation commits, in order. */
  function CreationSteps(db: Db, version: nat): seq<Statement> {
    StampSteps(db, version) + [CreateCompanies, PragmaForeignKeysOn, CreatePrices]
  }

  function RecreationSteps(version: nat): seq<Statement> {
    [DropVersion, DropCompanies, DropPrices, CreateVersion, InsertVersion(version), CreateCompanies, PragmaForeignKeysOn, CreatePrices]
  }

  /** A recreation as far as it is let; what a refused one has dropped stays dropped. */
  function DropSteps(db: Db, version: nat): seq<Statement> {
    if DropRefused(db) then [DropVersion] else RecreationSteps(version)
  }

  /**
    What follows creation: nothing, the version update, or the recreation. A refused recreation
    of a newer version is tried a second time, in answer to its own throw.
  */
  function UpgradeSteps(db: Db, version: nat, updateWellFormed: bool): seq<Statement> {
    if db.version.None? || db.version.value == [] || LowWord(db.version.value[0]) == version then []
    else if LowWord(db.version.value[0]) < version
    then (if updateWellFormed then [UpdateVersion(version)] else DropSteps(db, version))
    else if DropRefused(db) then [DropVersion, DropVersion] else RecreationSteps(version)
  }

  /** Every statement a start commits, in order. */
  function Steps(db: Db, version: nat, updateWellFormed: bool): seq<Statement> {
    CreationSteps(db, version) + UpgradeSteps(db, version, updateWellFormed)
  }

  class VersionTable {
    const db: Connection

    constructor (db: Connection)
      ensures this.db == db
    {
      this.db := db;
    }

    method IsExist() returns (found: bool)
      modifies db
      ensures db.content == old(db.content) && db.depth == old(db.depth) && db.commits == old(db.commits)
      ensures found == db.content.version.Some?
    {
      db.Lock();
      found := db.content.version.Some?;
      db.Unlock();
    }

    method IsVersionPresent() returns (r: Result<bool, Failure>)
      modifies db
      ensures db.content == old(db.content) && db.depth == old(db.depth) && db.commits == old(db.commits)
      ensures r == match db.content.version { case None => Err(NoSuchTable) case Some(rows) => Ok(rows != []) }
    {
      db.Lock();
      r := match db.content.version { case None => Err(NoSuchTable) case Some(rows) => Ok(rows != []) };
      db.Unlock();
    }

    method GetDBVersion() returns (r: Result<nat, Failure>)
      modifies db
      ensures db.content == old(db.content) && db.depth == old(db.depth) && db.commits == old(db.commits)
      ensures r == match db.content.version {
                     case None => Err(NoSuchTable)
                     case Some(rows) => if rows == [] then Err(NoRow) else Ok(LowWord(rows[0])) }
    {
      db.Lock();
      if db.content.version.None? {
        r := Err(NoSuchTable);
      } else if db.content.version.value == [] {
        r := Err(NoRow);
      } else {
        r := Ok(LowWord(db.content.version.value[0]));
      }
      db.Unlock();
    }

    method Create(version: nat)
      modifies db
      ensures db.depth == old(db.depth)
      ensures db.content == Stamped(old(db.content), version)
      ensures db.commits == old(db.commits) + StampSteps(old(db.content), version)
    {
      db.Lock();
      assert [CreateVersion][1..] == [];
      var made := db.RunTransaction([CreateVersion]);
      var present := IsVersionPresent();
      if present == Ok(false) {
        assert [InsertVersion(version)][1..] == [];
        assert [] + [version as int] == [version as int];
        made := db.RunTransaction([InsertVersion(version)]);
      }
      db.Unlock();
    }

    /** `wellFormed` is false for the text as written, which lacks a space before SET. */
    method UpdateDBVersion(version: nat, wellFormed: bool) returns (r: Result<(), Failure>)
      modifies db
      ensures db.depth == old(db.depth)
      ensures var s := if wellFormed then UpdateVersion(version) else Malformed;
              && db.content == After(old(db.content), s) && (r.Ok? <==> Exec(old(db.content), s).Ok?)
              && db.commits == old(db.commits) + if r.Ok? then [s] else []
    {
      var s := if wellFormed then UpdateVersion(version) else Malformed;
      assert [s][1..] == [];
      r := db.RunTransaction([s]);
    }
  }

  class DBManager {
    const db: Connection
    const tVersion: VersionTable
    const dbVersion: nat
    const updateWellFormed: bool

    /** Where the constructor throws, `failed` says so. */
    var failed: bool

    constructor (db: Connection, dbVersion: nat, updateWellFormed: bool)
      requires dbVersion < WORD
      modifies db
      ensures this.db == db && db.depth == old(db.depth)
      ensures (db.content, !failed) == Started(old(db.content), dbVersion, updateWellFormed)
      ensures db.commits == old(db.commits) + Steps(old(db.content), dbVersion, updateWellFormed)
    {
      this.db, this.dbVersion, this.updateWellFormed, this.failed := db, dbVersion, updateWellFormed, false;
      var version := new VersionTable(db);
      this.tVersion := version;
      new;
      CreateAndInitAllTables();
      var r := UpgradeVersion();
      failed := r.Err?;
    }

    method CreateAndInitAllTables()
      requires tVersion.db == db
      modifies db
      ensures db.depth == old(db.depth)
      ensures db.content == Created(old(db.content), dbVersion)
      ensures db.commits == old(db.commits) + CreationSteps(old(db.content), dbVersion)
    {
      tVersion.Create(dbVersion);
      assert [CreateCompanies][1..] == [] && [PragmaForeignKeysOn, CreatePrices][1..] == [CreatePrices];
      assert [CreatePrices][1..] == [];
      var r := db.RunTransaction([CreateCompanies]);
      r := db.RunTransaction([PragmaForeignKeysOn, CreatePrices]);
    }

    method DropAllTables() returns (r: Result<(), Failure>)
      modifies db
      ensures db.depth == old(db.depth)
      ensures if DropRefused(old(db.content))
              then r.Err? && db.content == old(db.content).(version := None)
              else r.Ok? && db.content == Db(None, None, None, old(db.content).enforced)
      ensures db.commits == old(db.commits) + if r.Err? then [DropVersion] else [DropVersion, DropCompanies, DropPrices]
    {
      assert [DropVersion][1..] == [] && [DropCompanies][1..] == [] && [DropPrices][1..] == [];
      r := db.RunTransaction([DropVersion]);
      r := db.RunTransaction([DropCompanies]);
      if r.Err? {
        return;
      }
      r := db.RunTransaction([DropPrices]);
    }

    method DropAndCreateAllTables() returns (r: Result<(), Failure>)
      requires tVersion.db == db
      modifies db
      ensures db.depth == old(db.depth)
      ensures if DropRefused(old(db.content))
              then r.Err? && db.content == old(db.content).(version := None)
              else r.Ok? && db.content == Empty(old(db.content).enforced, dbVersion)
      ensures db.commits == old(db.commits) + DropSteps(old(db.content), dbVersion)
    {
      r := DropAllTables();
      if r.Err? {
        return;
      }
      CreateAndInitAllTables();
    }

    method Upgrade(previous: nat) returns (r: Result<(), Failure>)
      requires tVersion.db == db
      modifies db
      ensures db.depth == old(db.depth)
      ensures var s := if updateWellFormed then UpdateVersion(dbVersion) else Malformed;
              && db.content == After(old(db.content), s) && (r.Ok? <==> Exec(old(db.content), s).Ok?)
              && db.commits == old(db.commits) + if r.Ok? then [s] else []
    {
      r := tVersion.UpdateDBVersion(dbVersion, updateWellFormed);
    }

    /** A throw anywhere in the comparison is caught, and answered by recreating everything. */
    method UpgradeVersion() returns (r: Result<(), Failure>)
      requires tVersion.db == db
      modifies db
      ensures db.depth == old(db.depth)
      ensures (db.content, r.Ok?) == Upgraded(old(db.content), dbVersion, updateWellFormed)
      ensures old(db.content).version.Some? && old(db.content).version.value != [] ==>
                db.commits == old(db.commits) + UpgradeSteps(old(db.content), dbVersion, updateWellFormed)
    {
      r := Ok(());
      var exist := tVersion.IsExist();
      if !exist {
        r := DropAndCreateAllTables();
        return;
      }
      var value := tVersion.GetDBVersion();
      var thrown := value.Err?;
      if value.Ok? {
        if dbVersion < value.value {
          var tried := DropAndCreateAllTables();
          thrown := tried.Err?;
        } else if dbVersion > value.value {
          var tried := Upgrade(value.value);
          thrown := tried.Err?;
        }
      }
      if thrown {
        r := DropAndCreateAllTables();
      }
    }
  }

  /** A stored version beyond 32 bits that reads as the program's own. */
  predicate WrapsToCurrent(db: Db, version: nat) {
    db.version.Some? && db.version.value != [] && LowWord(db.version.value[0]) == version && db.version.value[0] != version
  }

  /**
    The constructor succeeds on every database, however many tables are missing and whatever
    version is stored, except exactly where it must recreate and enforcement refuses the drop.
  */
  lemma StartSucceedsExactly(db: Db, version: nat, updateWellFormed: bool)
    requires version < WORD
    ensures Started(db, version, updateWellFormed).1 <==> Keeps(db, version, updateWellFormed) || !DropRefused(db)
  {
    assert Created(db, version).companies.Some? ==>
      (References(Created(db, version).prices, Created(db, version).companies.value.rows) ==>
         db.prices.Some? && db.companies.Some? && References(db.prices, db.companies.value.rows));
  }

  /**
    After a successful start all tables exist, the version reads as the program's, and it is
    the program's exactly unless a wrapped one was found.
  */
  lemma StartConverges(db: Db, version: nat, updateWellFormed: bool)
    requires version < WORD && Started(db, version, updateWellFormed).1
    ensures var end := Started(db, version, updateWellFormed).0;
      && end.version.Some? && end.companies.Some? && end.prices.Some? && end.enforced == db.enforced
      && end.version.value != [] && LowWord(end.version.value[0]) == version
      && (end.version.value[0] == version <==> !WrapsToCurrent(db, version))
  {
  }

  /** A second start changes nothing at all. */
  lemma StartIsIdempotent(db: Db, version: nat, updateWellFormed: bool)
    requires version < WORD && Started(db, version, updateWellFormed).1
    ensures var end := Started(db, version, updateWellFormed).0;
            Started(end, version, updateWellFormed) == (end, true)
  {
    StartConverges(db, version, updateWellFormed);
    var end := Started(db, version, updateWellFormed).0;
    assert Created(end, version) == end;
  }

  /** Existing company and price rows survive exactly when the database is one the start keeps. */
  lemma DataSurvivesExactly(db: Db, version: nat, updateWellFormed: bool)
    requires version < WORD && Started(db, version, updateWellFormed).1
    ensures var end := Started(db, version, updateWellFormed).0;
      && (Keeps(db, version, updateWellFormed) ==> end.companies == Fresh(db.companies) && end.prices == Fresh(db.prices))
      && (!Keeps(db, version, updateWellFormed) ==> end == Empty(db.enforced, version))
      && (db.companies.Some? && db.companies.value.rows != [] ==>
            (end.companies == db.companies <==> Keeps(db, version, updateWellFormed)))
  {
  }

  /** Creation stamps first, so the missing-version-table branch of UpgradeVersion is out of reach. */
  lemma VersionTableIsThereToCompare(db: Db, version: nat)
    ensures Created(db, version).version.Some? && Created(db, version).version.value != []
  {
  }

  /** A started store is one the price loop can run on; it is integral unless broken prices were kept. */
  lemma StartIsFitForIngest(db: Db, version: nat, updateWellFormed: bool)
    requires version < WORD && Valid(db) && Started(db, version, updateWellFormed).1
    ensures var end := Started(db, version, updateWellFormed).0;
      Ready(end) && (Integral(end) <==> !Keeps(db, version, updateWellFormed) || FoundIntegral(db))
  {
    DataSurvivesExactly(db, version, updateWellFormed);
    var end := Started(db, version, updateWellFormed).0;
    if Keeps(db, version, updateWellFormed) && db.prices.Some? {
      assert end.prices == db.prices;
      if Integral(end) && db.prices.value.rows != [] {
        assert HasId(end.companies.value.rows, end.prices.value.rows[0].company);
      }
    }
  }

  // ----- crashes -----

  /** The database after a crash between the k-th transaction and the next. */
  function CrashedAt(db: Db, version: nat, updateWellFormed: bool, k: nat): Db
    requires k <= |Steps(db, version, updateWellFormed)|
  {
    AfterAll(db, Steps(db, version, updateWellFormed)[..k])
  }

  lemma CreationStepKeepsCreated(db: Db, version: nat, s: Statement)
    requires s == CreateVersion || s == CreateCompanies || s == PragmaForeignKeysOn || s == CreatePrices
          || (s == InsertVersion(version) && db.version == Some([]))
    ensures Created(After(db, s), version) == Created(db, version)
  {
    assert [] + [version as int] == [version as int];
  }

  lemma CreationIsComplete(db: Db, version: nat)
    ensures AfterAll(db, CreationSteps(db, version)) == Created(db, version)
  {
    var run := CreationSteps(db, version);
    assert [] + [version as int] == [version as int];
    assert AfterAll(db, run[..0]) == db;
    AfterAllStep(db, run, 0);
    AfterAllStep(db, run, 1);
    AfterAllStep(db, run, 2);
    AfterAllStep(db, run, 3);
    if |run| == 5 { AfterAllStep(db, run, 4); }
    assert run[..|run|] == run;
  }

  /** Creation takes up where a crash in its midst left it. */
  lemma CreationPrefix(db: Db, version: nat, k: nat)
    requires k <= |CreationSteps(db, version)|
    ensures var mid := AfterAll(db, CreationSteps(db, version)[..k]);
      && Created(mid, version) == Created(db, version)
      && (k == 1 ==> mid.version == (if db.version.Some? then db.version else Some([])))
      && (k == |CreationSteps(db, version)| ==> mid == Created(db, version))
    decreases k
  {
    var run := CreationSteps(db, version);
    if k == 0 {
      assert AfterAll(db, run[..0]) == db;
    } else {
      CreationPrefix(db, version, k - 1);
      AfterAllStep(db, run, k - 1);
      CreationStepKeepsCreated(AfterAll(db, run[..k - 1]), version, run[k - 1]);
      if k == |run| { CreationIsComplete(db, version); }
    }
  }

  /** The database after the first `j` of the eight statements of a recreation. */
  function RecreatedUpTo(made: Db, version: nat, j: nat): Db {
    if j == 0 then made
    else if j == 1 then made.(version := None)
    else if j == 2 then made.(version := None, companies := None)
    else if j == 3 then Db(None, None, None, made.enforced)
    else if j == 4 then Db(Some([]), None, None, made.enforced)
    else if j == 5 then Db(Some([version]), None, None, made.enforced)
    else if j <= 7 then Db(Some([version]), Some(Table([], 0)), None, made.enforced)
    else Empty(made.enforced, version)
  }

  lemma RecreationStep(made: Db, version: nat, j: nat)
    requires !DropRefused(made) && j < 8
    ensures After(RecreatedUpTo(made, version, j), RecreationSteps(version)[j]) == RecreatedUpTo(made, version, j + 1)
  {
    assert [] + [version as int] == [version as int];
  }

  lemma RecreationPrefix(made: Db, version: nat, j: nat)
    requires !DropRefused(made) && j <= 8
    ensures AfterAll(made, RecreationSteps(version)[..j]) == RecreatedUpTo(made, version, j)
    decreases j
  {
    if j == 0 {
      assert AfterAll(made, RecreationSteps(version)[..0]) == made;
    } else {
      RecreationPrefix(made, version, j - 1);
      AfterAllStep(made, RecreationSteps(version), j - 1);
      RecreationStep(made, version, j - 1);
    }
  }

  lemma CreatedKeepsRefusal(db: Db, version: nat)
    ensures DropRefused(Created(db, version)) == DropRefused(db)
  {
    var made := Created(db, version);
    if DropRefused(made) {
      assert References(db.prices, db.companies.value.rows);
    }
    if DropRefused(db) {
      assert References(made.prices, made.companies.value.rows);
    }
  }

  lemma FewSteps(db: Db, run: seq<Statement>)
    requires |run| <= 2
    ensures AfterAll(db, run) == if run == [] then db else if |run| == 1 then After(db, run[0]) else After(After(db, run[0]), run[1])
  {
    assert |run| == 1 ==> run[..0] == [];
    if |run| == 2 {
      assert run[..1] == [run[0]] && [run[0]][..0] == [];
    }
  }

  /** The committed transactions, all of them, are the start. */
  lemma StepsAreTheStart(db: Db, version: nat, updateWellFormed: bool)
    requires version < WORD
    ensures AfterAll(db, Steps(db, version, updateWellFormed)) == Started(db, version, updateWellFormed).0
  {
    var made, more := Created(db, version), UpgradeSteps(db, version, updateWellFormed);
    AfterAllConcat(db, CreationSteps(db, version), more);
    CreationIsComplete(db, version);
    CreatedKeepsRefusal(db, version);
    assert AfterAll(db, Steps(db, version, updateWellFormed)) == AfterAll(made, more);
    if |more| == 8 {
      RecreationPrefix(made, version, 8);
      assert RecreationSteps(version)[..8] == RecreationSteps(version);
    } else {
      FewSteps(made, more);
    }
  }

  /** A crash during creation is made good by the next start. */
  lemma CrashInCreation(db: Db, version: nat, updateWellFormed: bool, k: nat)
    requires k <= |CreationSteps(db, version)|
    ensures Started(CrashedAt(db, version, updateWellFormed, k), version, updateWellFormed) == Started(db, version, updateWellFormed)
  {
    CreationPrefix(db, version, k);
    assert Steps(db, version, updateWellFormed)[..k] == CreationSteps(db, version)[..k];
  }

  /** A crash after creation leaves what the steps of the upgrade so far have made of the created tables. */
  lemma CrashAfterCreation(db: Db, version: nat, updateWellFormed: bool, j: nat)
    requires j <= |UpgradeSteps(db, version, updateWellFormed)|
    ensures CrashedAt(db, version, updateWellFormed, |CreationSteps(db, version)| + j)
         == AfterAll(Created(db, version), UpgradeSteps(db, version, updateWellFormed)[..j])
  {
    var first, more := CreationSteps(db, version), UpgradeSteps(db, version, updateWellFormed);
    assert (first + more)[..|first| + j] == first + more[..j];
    AfterAllConcat(db, first, more[..j]);
    CreationIsComplete(db, version);
  }

  /** A kept or updated database comes through a crash at any point. */
  lemma CrashOfKeptStart(db: Db, version: nat, updateWellFormed: bool, k: nat)
    requires version < WORD && Keeps(db, version, updateWellFormed) && k <= |Steps(db, version, updateWellFormed)|
    ensures Started(CrashedAt(db, version, updateWellFormed, k), version, updateWellFormed) == Started(db, version, updateWellFormed)
  {
    if k <= |CreationSteps(db, version)| {
      CrashInCreation(db, version, updateWellFormed, k);
    } else {
      var steps := Steps(db, version, updateWellFormed);
      assert steps[..k] == steps;
      StepsAreTheStart(db, version, updateWellFormed);
      StartSucceedsExactly(db, version, updateWellFormed);
      StartIsIdempotent(db, version, updateWellFormed);
    }
  }

  /** No rows, and no id ever handed out. */
  predicate Blank<Row>(t: Option<Table<Row>>) {
    t.None? || (|t.value.rows| == 0 && t.value.last == 0)
  }

  lemma RestartOfRecreation(made: Db, version: nat, updateWellFormed: bool, j: nat)
    requires version < WORD && 1 <= j <= 8 && made.companies.Some? && made.prices.Some?
    ensures Started(RecreatedUpTo(made, version, j), version, updateWellFormed)
         == (Db(Some([version]), if j == 1 then made.companies else Some(Table([], 0)),
                if j <= 2 then made.prices else Some(Table([], 0)), made.enforced), true)
  {
    assert LowWord(version) == version;
  }

  /**
    What the start after a crash makes of a recreation's first `j` transactions: between the
    drops it keeps, under the new version, whatever had not been dropped yet.
  */
  lemma CrashInRecreation(db: Db, version: nat, updateWellFormed: bool, j: nat)
    requires version < WORD && !Keeps(db, version, updateWellFormed) && !DropRefused(db) && 1 <= j <= 8
    ensures Started(CrashedAt(db, version, updateWellFormed, |CreationSteps(db, version)| + j), version, updateWellFormed)
         == (Db(Some([version]), if j == 1 then Fresh(db.companies) else Some(Table([], 0)),
                if j <= 2 then Fresh(db.prices) else Some(Table([], 0)), db.enforced), true)
  {
    var made := Created(db, version);
    CreatedKeepsRefusal(db, version);
    CrashAfterCreation(db, version, updateWellFormed, j);
    RecreationPrefix(made, version, j);
    assert LowWord(version) == version;
    RestartOfRecreation(made, version, updateWellFormed, j);
  }

  /** A refused drop has already taken the version table, so the next start keeps everything. */
  lemma CrashAfterRefusal(db: Db, version: nat, updateWellFormed: bool)
    requires version < WORD && !Keeps(db, version, updateWellFormed) && DropRefused(db)
    ensures Started(CrashedAt(db, version, updateWellFormed, |CreationSteps(db, version)| + 1), version, updateWellFormed)
         == (Created(db, version).(version := Some([version])), true)
    ensures !Started(db, version, updateWellFormed).1
  {
    var made := Created(db, version);
    CreatedKeepsRefusal(db, version);
    CrashAfterCreation(db, version, updateWellFormed, 1);
    assert UpgradeSteps(db, version, updateWellFormed)[..1] == [DropVersion];
    FewSteps(made, [DropVersion]);
    assert LowWord(version) == version;
  }

  /** The start that follows a crash ends where the interrupted one would have, wherever it crashed. */
  ghost predicate CrashSafe(db: Db, version: nat, updateWellFormed: bool) {
    forall k | 0 <= k <= |Steps(db, version, updateWellFormed)| ::
      Started(CrashedAt(db, version, updateWellFormed, k), version, updateWellFormed) == Started(db, version, updateWellFormed)
  }

  lemma BlankIsCrashSafe(db: Db, version: nat, updateWellFormed: bool)
    requires version < WORD && !Keeps(db, version, updateWellFormed) && Blank(db.companies) && Blank(db.prices)
    ensures CrashSafe(db, version, updateWellFormed)
  {
    var n := |CreationSteps(db, version)|;
    assert !DropRefused(db);
    CrashInRecreation(db, version, updateWellFormed, 8);
    forall k | 0 <= k <= |Steps(db, version, updateWellFormed)|
      ensures Started(CrashedAt(db, version, updateWellFormed, k), version, updateWellFormed) == Started(db, version, updateWellFormed)
    {
      if k <= n {
        CrashInCreation(db, version, updateWellFormed, k);
      } else {
        CrashInRecreation(db, version, updateWellFormed, k - n);
        DataSurvivesExactly(db, version, updateWellFormed);
        StartSucceedsExactly(db, version, updateWellFormed);
      }
    }
  }

  lemma StaleRowsAreNotCrashSafe(db: Db, version: nat, updateWellFormed: bool)
    requires version < WORD && !Keeps(db, version, updateWellFormed) && !(Blank(db.companies) && Blank(db.prices))
    ensures !CrashSafe(db, version, updateWellFormed)
  {
    var k := |CreationSteps(db, version)| + 1;
    StartSucceedsExactly(db, version, updateWellFormed);
    if DropRefused(db) {
      CrashAfterRefusal(db, version, updateWellFormed);
    } else {
      CrashInRecreation(db, version, updateWellFormed, 1);
      DataSurvivesExactly(db, version, updateWellFormed);
    }
    assert k <= |Steps(db, version, updateWellFormed)|;
    assert Started(CrashedAt(db, version, updateWellFormed, k), version, updateWellFormed) != Started(db, version, updateWellFormed);
  }

  /** What a caller can check on the database as found. */
  predicate CrashProof(db: Db, version: nat, updateWellFormed: bool) {
    Keeps(db, version, updateWellFormed) || (Blank(db.companies) && Blank(db.prices))
  }

  /**
    Over every crash point of creation, update and recreation: an interrupted start is made good
    by the next one exactly when the database is one the start keeps, or has no rows and no used
    ids in either table.
  */
  lemma CrashIsHarmlessExactly(db: Db, version: nat, updateWellFormed: bool)
    requires version < WORD
    ensures CrashSafe(db, version, updateWellFormed) <==> CrashProof(db, version, updateWellFormed)
  {
    if Keeps(db, version, updateWellFormed) {
      forall k | 0 <= k <= |Steps(db, version, updateWellFormed)|
        ensures Started(CrashedAt(db, version, updateWellFormed, k), version, updateWellFormed) == Started(db, version, updateWellFormed)
      {
        CrashOfKeptStart(db, version, updateWellFormed, k);
      }
    } else if Blank(db.companies) && Blank(db.prices) {
      BlankIsCrashSafe(db, version, updateWellFormed);
    } else {
      StaleRowsAreNotCrashSafe(db, version, updateWellFormed);
    }
  }

  lemma SameCreatedSameProof(db: Db, other: Db, version: nat, updateWellFormed: bool)
    requires version < WORD && Created(db, version) == Created(other, version)
    ensures CrashProof(db, version, updateWellFormed) == CrashProof(other, version, updateWellFormed)
  {
    assert LowWord(version) == version;
    assert Fresh(db.companies) == Fresh(other.companies) && Fresh(db.prices) == Fresh(other.prices);
  }

  lemma RecreationStaysBlank(made: Db, version: nat, j: nat)
    requires j <= 8 && Blank(made.companies) && Blank(made.prices)
    ensures var mid := AfterAll(made, RecreationSteps(version)[..j]); Blank(mid.companies) && Blank(mid.prices)
  {
    RecreationPrefix(made, version, j);
  }

  lemma CrashKeepsProof(db: Db, version: nat, updateWellFormed: bool, k: nat)
    requires version < WORD && CrashProof(db, version, updateWellFormed) && k <= |Steps(db, version, updateWellFormed)|
    ensures CrashProof(CrashedAt(db, version, updateWellFormed, k), version, updateWellFormed)
  {
    var n := |CreationSteps(db, version)|;
    if k <= n {
      CreationPrefix(db, version, k);
      assert Steps(db, version, updateWellFormed)[..k] == CreationSteps(db, version)[..k];
      SameCreatedSameProof(db, CrashedAt(db, version, updateWellFormed, k), version, updateWellFormed);
    } else if Keeps(db, version, updateWellFormed) {
      assert Steps(db, version, updateWellFormed)[..k] == Steps(db, version, updateWellFormed);
      StepsAreTheStart(db, version, updateWellFormed);
      StartSucceedsExactly(db, version, updateWellFormed);
      StartConverges(db, version, updateWellFormed);
    } else {
      assert !DropRefused(db);
      CrashAfterCreation(db, version, updateWellFormed, k - n);
      RecreationStaysBlank(Created(db, version), version, k - n);
    }
  }

  /** A start crashed at each of the given points in turn; points past its end let it finish. */
  function CrashedAtEach(db: Db, version: nat, updateWellFormed: bool, points: seq<nat>): Db {
    if points == [] then db else
    var before := CrashedAtEach(db, version, updateWellFormed, points[..|points| - 1]);
    var all, k := |Steps(before, version, updateWellFormed)|, points[|points| - 1];
    CrashedAt(before, version, updateWellFormed, if k <= all then k else all)
  }

  /** Under the same condition any number of crashes, one start after the other, is made good. */
  lemma {:induction false} CrashesAreHarmless(db: Db, version: nat, updateWellFormed: bool, points: seq<nat>)
    requires version < WORD && CrashProof(db, version, updateWellFormed)
    ensures CrashProof(CrashedAtEach(db, version, updateWellFormed, points), version, updateWellFormed)
    ensures Started(CrashedAtEach(db, version, updateWellFormed, points), version, updateWellFormed)
         == Started(db, version, updateWellFormed)
    decreases |points|
  {
    if points == [] {
    } else {
      var front, last := points[..|points| - 1], points[|points| - 1];
      CrashesAreHarmless(db, version, updateWellFormed, front);
      var before := CrashedAtEach(db, version, updateWellFormed, front);
      var all := |Steps(before, version, updateWellFormed)|;
      var k := if last <= all then last else all;
      CrashIsHarmlessExactly(before, version, updateWellFormed);
      CrashKeepsProof(before, version, updateWellFormed, k);
      assert CrashedAtEach(db, version, updateWellFormed, points) == CrashedAt(before, version, updateWellFormed, k);
    }
  }

  /**
    The version table goes first and comes back stamped first: a crash after its drop, or a
    refused drop, leaves a database whose next start keeps the old rows under the new version,
    although a start without the crash would have dropped them.
  */
  lemma CrashLeavesStaleRows(db: Db, version: nat, updateWellFormed: bool)
    requires version < WORD && !Keeps(db, version, updateWellFormed)
    requires db.companies.Some? && db.companies.value.rows != []
    ensures var crashed := After(Created(db, version), DropVersion);
            var restarted := Started(crashed, version, updateWellFormed);
      && restarted.1 && restarted.0.version == Some([version]) && restarted.0.companies == db.companies
      && (Started(db, version, updateWellFormed).1 ==> Started(db, version, updateWellFormed).0.companies == Some(Table([], 0)))
      && (!Started(db, version, updateWellFormed).1 ==> Started(db, version, updateWellFormed).0 == crashed)
  {
    assert LowWord(version) == version;
  }

  lemma FirstCompanyInherits(db: Db, info: CompanyInfo, gap: nat)
    requires Ready(db) && db.companies == Some(Table([], 0))
    ensures var next := AfterAdd(db, info, gap);
      && next.companies.value.rows == [Company(1, info.shortName, info.fullName, Some(info.logo))]
      && next.prices == db.prices
      && forall k :: 0 <= k < |next.prices.value.rows| && next.prices.value.rows[k].company == 1 ==>
           BookOf(next).journal[k].0 == info.shortName
  {
    var next := AfterAdd(db, info, gap);
    assert next.companies.value == Table([] + [Company(1, info.shortName, info.fullName, Some(info.logo))], 1);
    UuidOfRow(next.companies.value, 0);
  }

  /**
    The worse crash, between the drops of companies and prices: the next start keeps every old
    price beside an empty companies table whose ids begin again. The store is integral only if
    there were no prices, and the first company added inherits those of the old company 1.
  */
  lemma CrashLosesIntegrity(db: Db, version: nat, updateWellFormed: bool, info: CompanyInfo, gap: nat)
    requires version < WORD && Valid(db) && !Keeps(db, version, updateWellFormed) && !DropRefused(db)
    ensures var crashed := CrashedAt(db, version, updateWellFormed, |CreationSteps(db, version)| + 2);
            var restarted := Started(crashed, version, updateWellFormed).0;
      && Started(crashed, version, updateWellFormed).1
      && restarted.version == Some([version]) && restarted.companies == Some(Table([], 0)) && restarted.prices == Fresh(db.prices)
      && Ready(restarted) && (Integral(restarted) <==> Fresh(db.prices).value.rows == [])
      && var next := AfterAdd(restarted, info, gap);
         && next.companies.value.rows == [Company(1, info.shortName, info.fullName, Some(info.logo))]
         && next.prices == restarted.prices
         && forall k :: 0 <= k < |next.prices.value.rows| && next.prices.value.rows[k].company == 1 ==>
              BookOf(next).journal[k].0 == info.shortName
  {
    CrashInRecreation(db, version, updateWellFormed, 2);
    var crashed := CrashedAt(db, version, updateWellFormed, |CreationSteps(db, version)| + 2);
    var restarted := Started(crashed, version, updateWellFormed).0;
    var rows := restarted.prices.value.rows;
    if rows != [] { assert !HasId([], rows[0].company); }
    FirstCompanyInherits(restarted, info, gap);
  }
}
