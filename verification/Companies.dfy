/**
  The companies table over whole runs (Daemon/db/table_companies.cpp): ids, uuids and lookups.
*/
module Companies {
  import opened Common
  import opened Sql

  /** What SQLite's PRIMARY KEY, AUTOINCREMENT and UNIQUE keep about one table. */
  ghost predicate ValidCompanies(t: Table<Company>) {
    && (forall i :: 0 <= i < |t.rows| ==> 1 <= t.rows[i].id <= t.last)
    && (forall i, j :: 0 <= i < j < |t.rows| ==> t.rows[i].id < t.rows[j].id)
    && (forall i, j :: 0 <= i < j < |t.rows| ==> t.rows[i].uuid != t.rows[j].uuid)
  }

  ghost predicate ValidPrices(t: Table<Price>) {
    && (forall i :: 0 <= i < |t.rows| ==> 1 <= t.rows[i].id <= t.last)
    && (forall i, j :: 0 <= i < j < |t.rows| ==> t.rows[i].id < t.rows[j].id)
  }

  ghost predicate Valid(db: Db) {
    && (db.companies.Some? ==> ValidCompanies(db.companies.value))
    && (db.prices.Some? ==> ValidPrices(db.prices.value))
  }

  lemma PrefixIsValid(t: Table<Company>, n: nat)
    requires ValidCompanies(t) && n < |t.rows|
    ensures ValidCompanies(t.(rows := t.rows[..n]))
    ensures forall row :: row in t.rows[..n] ==> row.id < t.rows[n].id && row.uuid != t.rows[n].uuid
  {
  }

  lemma AppendIsValid(t: Table<Company>, x: Company)
    requires ValidCompanies(t) && 1 <= x.id <= t.last
    requires forall row :: row in t.rows ==> row.id < x.id && row.uuid != x.uuid
    ensures ValidCompanies(t.(rows := t.rows + [x]))
  {
    forall i | 0 <= i < |t.rows| ensures t.rows[i].id < x.id && t.rows[i].uuid != x.uuid {
      assert t.rows[i] in t.rows;
    }
  }

  lemma {:induction false} WithoutCompanyHas(rows: seq<Company>, id: int)
    ensures forall row :: row in WithoutCompany(rows, id) <==> row in rows && row.id != id
    decreases |rows|
  {
    if rows == [] {
    } else {
      WithoutCompanyHas(rows[..|rows| - 1], id);
      assert rows == rows[..|rows| - 1] + [rows[|rows| - 1]];
    }
  }

  lemma {:induction false} WithoutCompanyKeepsValid(t: Table<Company>, id: int)
    requires ValidCompanies(t)
    ensures ValidCompanies(t.(rows := WithoutCompany(t.rows, id)))
    decreases |t.rows|
  {
    if t.rows == [] {
    } else {
      var n := |t.rows| - 1;
      PrefixIsValid(t, n);
      WithoutCompanyKeepsValid(t.(rows := t.rows[..n]), id);
      WithoutCompanyHas(t.rows[..n], id);
      if t.rows[n].id != id {
        AppendIsValid(t.(rows := WithoutCompany(t.rows[..n], id)), t.rows[n]);
      }
    }
  }

  lemma {:induction false} WithoutPricesOfHas(rows: seq<Price>, company: int)
    ensures forall row :: row in WithoutPricesOf(rows, company) <==> row in rows && row.company != company
    decreases |rows|
  {
    if rows == [] {
    } else {
      WithoutPricesOfHas(rows[..|rows| - 1], company);
      assert rows == rows[..|rows| - 1] + [rows[|rows| - 1]];
    }
  }

  lemma PricePrefixIsValid(t: Table<Price>, n: nat)
    requires ValidPrices(t) && n < |t.rows|
    ensures ValidPrices(t.(rows := t.rows[..n]))
    ensures forall row :: row in t.rows[..n] ==> row.id < t.rows[n].id
  {
  }

  lemma PriceAppendIsValid(t: Table<Price>, x: Price)
    requires ValidPrices(t) && 1 <= x.id <= t.last
    requires forall row :: row in t.rows ==> row.id < x.id
    ensures ValidPrices(t.(rows := t.rows + [x]))
  {
    forall i | 0 <= i < |t.rows| ensures t.rows[i].id < x.id {
      assert t.rows[i] in t.rows;
    }
  }

  lemma {:induction false} WithoutPricesOfKeepsValid(t: Table<Price>, company: int)
    requires ValidPrices(t)
    ensures ValidPrices(t.(rows := WithoutPricesOf(t.rows, company)))
    decreases |t.rows|
  {
    if t.rows == [] {
    } else {
      var n := |t.rows| - 1;
      PricePrefixIsValid(t, n);
      WithoutPricesOfKeepsValid(t.(rows := t.rows[..n]), company);
      WithoutPricesOfHas(t.rows[..n], company);
      if t.rows[n].company != company {
        PriceAppendIsValid(t.(rows := WithoutPricesOf(t.rows[..n], company)), t.rows[n]);
      }
    }
  }

  /** Unless refused, a removal takes out exactly the rows with the id, prices those of the company; ids stay used. */
  lemma RemovalIsExact(db: Db, id: int)
    ensures Exec(db, DeleteCompany(id)).Ok? ==>
      var next := After(db, DeleteCompany(id));
      && next == db.(companies := next.companies) && db.companies.Some? && next.companies.Some?
      && next.companies.value.last == db.companies.value.last
      && forall row :: row in next.companies.value.rows <==> row in db.companies.value.rows && row.id != id
    ensures Exec(db, DeletePricesOf(id)).Ok? ==>
      var next := After(db, DeletePricesOf(id));
      && next == db.(prices := next.prices) && db.prices.Some? && next.prices.Some?
      && next.prices.value.last == db.prices.value.last
      && forall row :: row in next.prices.value.rows <==> row in db.prices.value.rows && row.company != id
  {
    if db.companies.Some? { WithoutCompanyHas(db.companies.value.rows, id); }
    if db.prices.Some? { WithoutPricesOfHas(db.prices.value.rows, id); }
  }

  /** The corrected version update sets every stored version, and nothing else. */
  lemma UpdateSetsEveryVersion(db: Db, version: int)
    requires db.version.Some?
    ensures var next := After(db, UpdateVersion(version));
      && next == db.(version := next.version) && next.version.Some? && |next.version.value| == |db.version.value|
      && forall i :: 0 <= i < |next.version.value| ==> next.version.value[i] == version
  {
  }

  lemma InsertKeepsValid(t: Table<Company>, uuid: string, name: string, logo: string, gap: nat)
    requires ValidCompanies(t)
    ensures ValidCompanies(InsertOrIgnore(t, uuid, name, logo, gap))
  {
    if !HasUuid(t.rows, uuid) {
      AppendIsValid(t.(last := t.last + 1), Company(t.last + 1, uuid, name, Some(logo)));
    }
  }

  lemma InsertPriceKeepsValid(t: Table<Price>, company: int, amount: real, time: int)
    requires ValidPrices(t)
    ensures ValidPrices(Table(t.rows + [Price(t.last + 1, company, amount, time)], t.last + 1))
  {
  }

  lemma LogoKeepsValid(t: Table<Company>, id: int, link: string)
    requires ValidCompanies(t)
    ensures ValidCompanies(t.(rows := WithLogo(t.rows, id, link)))
  {
    var rows := WithLogo(t.rows, id, link);
    assert forall i :: 0 <= i < |rows| ==> rows[i].id == t.rows[i].id && rows[i].uuid == t.rows[i].uuid;
  }

  /** SetLogoByID: the row with the id has the link; all else, in every row and table, is as it was. */
  lemma LogoIsSetByIdOnly(db: Db, id: int, link: string)
    requires db.companies.Some?
    ensures var next := After(db, UpdateLogo(id, link)); var was := db.companies.value.rows;
      && next == db.(companies := next.companies) && next.companies.Some? && next.companies.value.last == db.companies.value.last
      && var now := next.companies.value.rows;
         && |now| == |was|
         && forall i :: 0 <= i < |was| ==>
              && now[i].id == was[i].id && now[i].uuid == was[i].uuid && now[i].name == was[i].name
              && now[i].logo == if was[i].id == id then Some(link) else was[i].logo
  {
  }

  /** What a statement can make of the companies table. */
  lemma CompaniesAfter(db: Db, s: Statement)
    requires db.companies.Some?
    ensures var t, next := db.companies.value, After(db, s).companies;
      || next == None || next == Some(t)
      || (s.InsertCompany? && next == Some(InsertOrIgnore(t, s.uuid, s.name, s.logo, s.gap)))
      || (s.UpdateLogo? && next == Some(t.(rows := WithLogo(t.rows, s.id, s.link))))
      || (s.DeleteCompany? && next == Some(t.(rows := WithoutCompany(t.rows, s.id))))
  {
  }

  lemma FreshIsValid(db: Db, s: Statement)
    requires db.companies.None?
    ensures After(db, s).companies == None || After(db, s).companies == Some(Table([], 0))
  {
  }

  lemma StatementKeepsValidCompanies(db: Db, s: Statement)
    requires db.companies.Some? ==> ValidCompanies(db.companies.value)
    ensures After(db, s).companies.Some? ==> ValidCompanies(After(db, s).companies.value)
  {
    if db.companies.Some? {
      var t := db.companies.value;
      CompaniesAfter(db, s);
      if s.InsertCompany? { InsertKeepsValid(t, s.uuid, s.name, s.logo, s.gap); }
      if s.UpdateLogo? { LogoKeepsValid(t, s.id, s.link); }
      if s.DeleteCompany? { WithoutCompanyKeepsValid(t, s.id); }
    } else {
      FreshIsValid(db, s);
    }
  }

  lemma StatementKeepsValidPrices(db: Db, s: Statement)
    requires db.prices.Some? ==> ValidPrices(db.prices.value)
    ensures After(db, s).prices.Some? ==> ValidPrices(After(db, s).prices.value)
  {
    if db.prices.Some? {
      if s.InsertPrice? { InsertPriceKeepsValid(db.prices.value, s.company, s.amount, s.time); }
      if s.DeletePricesOf? { WithoutPricesOfKeepsValid(db.prices.value, s.company); }
    }
  }

  /** Every statement, failing or not, keeps both tables valid. */
  lemma StatementKeepsValid(db: Db, s: Statement)
    requires Valid(db)
    ensures Valid(After(db, s))
  {
    StatementKeepsValidCompanies(db, s);
    StatementKeepsValidPrices(db, s);
  }

  /** The row was there before, under the same uuid and name; only its logo may differ. */
  ghost predicate Known(row: Company, rows: seq<Company>) {
    exists j :: 0 <= j < |rows| && rows[j].id == row.id && rows[j].uuid == row.uuid && rows[j].name == row.name
  }

  lemma StatementKeepsIds(db: Db, s: Statement)
    requires Valid(db) && db.companies.Some? && s != DropCompanies
    ensures var next := After(db, s);
            && next.companies.Some? && db.companies.value.last <= next.companies.value.last
            && forall i :: 0 <= i < |next.companies.value.rows| ==>
                 var row := next.companies.value.rows[i];
                 row.id > db.companies.value.last || Known(row, db.companies.value.rows)
  {
    var t, next := db.companies.value, After(db, s);
    forall i | 0 <= i < |next.companies.value.rows|
      ensures var row := next.companies.value.rows[i]; row.id > t.last || Known(row, t.rows)
    {
      var row := next.companies.value.rows[i];
      if s.DeleteCompany? {
        WithoutCompanyHas(t.rows, s.id);
        assert row in next.companies.value.rows;
        var k :| 0 <= k < |t.rows| && t.rows[k] == row;
      } else if i < |t.rows| {
        assert t.rows[i].id == row.id;
      }
    }
  }

  /**
    Over any run that never recreates the table, an id means one company for ever: a row
    found at the end under an id that had already been handed out was there all along with the
    same uuid and name. So a removed id never comes back.
  */
  lemma {:induction false} IdsAreForever(db: Db, run: seq<Statement>)
    requires Valid(db) && db.companies.Some? && DropCompanies !in run
    ensures var end := AfterAll(db, run);
            && Valid(end) && end.companies.Some? && db.companies.value.last <= end.companies.value.last
            && forall i :: 0 <= i < |end.companies.value.rows| ==>
                 var row := end.companies.value.rows[i];
                 row.id > db.companies.value.last || Known(row, db.companies.value.rows)
    decreases |run|
  {
    if run == [] {
      forall i | 0 <= i < |db.companies.value.rows|
        ensures Known(db.companies.value.rows[i], db.companies.value.rows)
      {
        var row := db.companies.value.rows[i];
        assert db.companies.value.rows[i].id == row.id;
      }
    } else {
      var n := |run| - 1;
      IdsAreForever(db, run[..n]);
      var mid := AfterAll(db, run[..n]);
      StatementKeepsValid(mid, run[n]);
      StatementKeepsIds(mid, run[n]);
      var end := AfterAll(db, run);
      forall i | 0 <= i < |end.companies.value.rows|
        ensures var row := end.companies.value.rows[i];
                row.id > db.companies.value.last || Known(row, db.companies.value.rows)
      {
        var row := end.companies.value.rows[i];
        if row.id <= db.companies.value.last {
          assert Known(row, mid.companies.value.rows);
          var j :| 0 <= j < |mid.companies.value.rows| && mid.companies.value.rows[j].id == row.id
            && mid.companies.value.rows[j].uuid == row.uuid && mid.companies.value.rows[j].name == row.name;
          assert Known(mid.companies.value.rows[j], db.companies.value.rows);
        }
      }
    }
  }

  /** The ids handed to new rows by a run, in order. */
  function Issued(db: Db, run: seq<Statement>): seq<int>
    decreases |run|
  {
    if run == [] then [] else
    var n := |run| - 1;
    var mid := AfterAll(db, run[..n]);
    var now :=
      if run[n].InsertCompany? && mid.companies.Some? && !HasUuid(mid.companies.value.rows, run[n].uuid)
      then [mid.companies.value.last + 1] else [];
    Issued(db, run[..n]) + now
  }

  ghost predicate IncreasingBetween(ids: seq<int>, low: int, high: int) {
    && (forall i :: 0 <= i < |ids| ==> low < ids[i] <= high)
    && (forall i, j :: 0 <= i < j < |ids| ==> ids[i] < ids[j])
  }

  lemma IncreasingGrows(before: seq<int>, ids: seq<int>, low: int, mid: int, high: int)
    requires IncreasingBetween(before, low, mid) && low <= mid <= high
    requires ids == before || (ids == before + [mid + 1] && mid + 1 <= high)
    ensures IncreasingBetween(ids, low, high)
  {
  }

  lemma NewRowIsIssued(db: Db, s: Statement, i: nat)
    requires Valid(db) && db.companies.Some? && s != DropCompanies
    requires i < |After(db, s).companies.value.rows|
    requires After(db, s).companies.value.rows[i].id > db.companies.value.last
    ensures s.InsertCompany? && !HasUuid(db.companies.value.rows, s.uuid)
    ensures After(db, s).companies.value.rows[i].id == db.companies.value.last + 1
  {
    StatementKeepsIds(db, s);
    if s.DeleteCompany? {
      WithoutCompanyHas(db.companies.value.rows, s.id);
    }
  }

  /** Ids are handed out in strictly increasing order, above every earlier one, and only by inserts. */
  lemma {:induction false} IssuedIdsIncrease(db: Db, run: seq<Statement>)
    requires Valid(db) && db.companies.Some? && DropCompanies !in run
    ensures var ids, end := Issued(db, run), AfterAll(db, run).companies;
            && end.Some?
            && IncreasingBetween(ids, db.companies.value.last, end.value.last)
            && (forall i :: 0 <= i < |end.value.rows| ==>
                  end.value.rows[i].id in ids || HasId(db.companies.value.rows, end.value.rows[i].id))
    decreases |run|
  {
    if run == [] {
    } else {
      var n := |run| - 1;
      IssuedIdsIncrease(db, run[..n]);
      IdsAreForever(db, run[..n]);
      var mid, end := AfterAll(db, run[..n]), AfterAll(db, run);
      StatementKeepsIds(mid, run[n]);
      var before, ids := Issued(db, run[..n]), Issued(db, run);
      IncreasingGrows(before, ids, db.companies.value.last, mid.companies.value.last, end.companies.value.last);
      forall i | 0 <= i < |end.companies.value.rows|
        ensures end.companies.value.rows[i].id in Issued(db, run)
             || HasId(db.companies.value.rows, end.companies.value.rows[i].id)
      {
        var row := end.companies.value.rows[i];
        if row.id <= mid.companies.value.last {
          assert Known(row, mid.companies.value.rows);
        } else {
          NewRowIsIssued(mid, run[n], i);
        }
      }
    }
  }

  // ----- lookups -----

  /** The rows that `WHERE id = :value` selects. */
  function Selected(rows: seq<Company>, id: int): (out: seq<Company>) {
    if rows == [] then [] else
    Selected(rows[..|rows| - 1], id) + if rows[|rows| - 1].id == id then [rows[|rows| - 1]] else []
  }

  lemma {:induction false} SelectedHas(rows: seq<Company>, id: int)
    ensures forall row :: row in Selected(rows, id) <==> row in rows && row.id == id
    decreases |rows|
  {
    if rows == [] {
    } else {
      SelectedHas(rows[..|rows| - 1], id);
      assert rows == rows[..|rows| - 1] + [rows[|rows| - 1]];
    }
  }

  lemma {:induction false} NoneSelected(rows: seq<Company>, id: int)
    requires forall i :: 0 <= i < |rows| ==> rows[i].id != id
    ensures Selected(rows, id) == []
    decreases |rows|
  {
    if rows == [] {
    } else {
      NoneSelected(rows[..|rows| - 1], id);
    }
  }

  lemma {:induction false} SelectedIsShort(t: Table<Company>, id: int)
    requires ValidCompanies(t)
    ensures |Selected(t.rows, id)| <= 1
    decreases |t.rows|
  {
    if t.rows == [] {
    } else {
      var n := |t.rows| - 1;
      PrefixIsValid(t, n);
      SelectedIsShort(t.(rows := t.rows[..n]), id);
      if t.rows[n].id == id { NoneSelected(t.rows[..n], id); }
    }
  }

  /** An id selects at most one row, so the more-than-one-result branch is out of reach. */
  lemma SelectedById(t: Table<Company>, id: int)
    requires ValidCompanies(t)
    ensures |Selected(t.rows, id)| <= 1
    ensures forall row :: row in Selected(t.rows, id) <==> row in t.rows && row.id == id
  {
    SelectedHas(t.rows, id);
    SelectedIsShort(t, id);
  }

  /** What a lookup of one cell by id must answer. */
  ghost predicate FieldAnswer(rows: seq<Company>, cell: Company -> Option<string>, id: int, r: Result<string, Failure>) {
    match r
    case Ok(text) => exists row :: row in rows && row.id == id && cell(row) == Some(text)
    case Err(NullValue) => exists row :: row in rows && row.id == id && cell(row) == None
    case Err(NoRow) => !HasId(rows, id)
    case Err(_) => false
  }

  /** The one selected row, or none, gives the answer. */
  lemma SelectedAnswers(t: Table<Company>, cell: Company -> Option<string>, id: int)
    requires ValidCompanies(t)
    ensures var hit := Selected(t.rows, id);
      && |hit| <= 1
      && (hit == [] ==> FieldAnswer(t.rows, cell, id, Err(NoRow)))
      && (hit != [] && cell(hit[0]).None? ==> FieldAnswer(t.rows, cell, id, Err(NullValue)))
      && (hit != [] && cell(hit[0]).Some? ==> FieldAnswer(t.rows, cell, id, Ok(cell(hit[0]).value)))
  {
    var hit := Selected(t.rows, id);
    SelectedById(t, id);
    if hit == [] {
      forall i | 0 <= i < |t.rows| ensures t.rows[i].id != id { assert t.rows[i] in t.rows; }
    } else {
      assert hit[0] in hit;
    }
  }

  function Uuid(row: Company): Option<string> { Some(row.uuid) }

  /** An answered id is that of a row holding the uuid, and the other way round. */
  lemma AnswerIsARow(rows: seq<Company>, uuid: string, id: int)
    requires Plain(uuid)
    ensures RowIdAnswer(rows, uuid, Ok(id)) <==> exists i :: 0 <= i < |rows| && rows[i].uuid == uuid && rows[i].id == id
  {
    if i :| 0 <= i < |rows| && rows[i].uuid == uuid && rows[i].id == id {
      assert Matches(rows[i], uuid);
    }
  }

  lemma FieldIsARow(rows: seq<Company>, uuid: string, id: int)
    ensures FieldAnswer(rows, Uuid, id, Ok(uuid)) <==> exists i :: 0 <= i < |rows| && rows[i].uuid == uuid && rows[i].id == id
  {
    if i :| 0 <= i < |rows| && rows[i].uuid == uuid && rows[i].id == id {
      assert rows[i] in rows && Uuid(rows[i]) == Some(uuid);
    }
    if FieldAnswer(rows, Uuid, id, Ok(uuid)) {
      var row :| row in rows && row.id == id && Uuid(row) == Some(uuid);
      var i :| 0 <= i < |rows| && rows[i] == row;
      assert rows[i].uuid == uuid;
    }
  }

  /** GetRowID and GetUUIDByRowID undo each other on every present row. */
  lemma RowIdAndUuidAreInverse(t: Table<Company>, uuid: string, id: int)
    requires ValidCompanies(t) && Plain(uuid)
    ensures RowIdAnswer(t.rows, uuid, Ok(id)) <==> FieldAnswer(t.rows, Uuid, id, Ok(uuid))
    ensures RowIdAnswer(t.rows, uuid, Ok(id)) ==>
      && (forall id' :: RowIdAnswer(t.rows, uuid, Ok(id')) ==> id == id')
      && (forall uuid' :: FieldAnswer(t.rows, Uuid, id, Ok(uuid')) ==> uuid == uuid')
  {
    AnswerIsARow(t.rows, uuid, id);
    FieldIsARow(t.rows, uuid, id);
    if RowIdAnswer(t.rows, uuid, Ok(id)) {
      forall id' | RowIdAnswer(t.rows, uuid, Ok(id')) ensures id == id' { AnswerIsARow(t.rows, uuid, id'); }
      forall uuid' | FieldAnswer(t.rows, Uuid, id, Ok(uuid')) ensures uuid == uuid' { FieldIsARow(t.rows, uuid', id); }
    }
  }

  /** The answer a caller of GetRowID expects for a uuid that is in the table. */
  ghost predicate RightRowId(t: Table<Company>, uuid: string, r: Result<int, Failure>) {
    r.Ok? && FieldAnswer(t.rows, Uuid, r.value, Ok(uuid))
  }

  /** The column names of the companies table, and SQLite's own names of the row id, are no strings. */
  lemma ColumnNames()
    ensures ColumnOf("uuid") == Some(UuidColumn) && ColumnOf("full_name") == Some(NameColumn)
    ensures ColumnOf("logo") == Some(LogoColumn) && ColumnOf("id") == Some(IdColumn)
    ensures ColumnOf("rowid") == Some(IdColumn) && ColumnOf("oid") == Some(IdColumn) && ColumnOf("_rowid_") == Some(IdColumn)
    ensures ColumnOf("aapl") == None
  {
    assert Lower("uuid") == "uuid" && Lower("full_name") == "full_name" && Lower("logo") == "logo" && Lower("id") == "id";
    assert Lower("rowid") == "rowid" && Lower("oid") == "oid" && Lower("_rowid_") == "_rowid_" && Lower("aapl") == "aapl";
  }

  lemma ColumnNamesInAnyCase()
    ensures ColumnOf("UUID") == Some(UuidColumn) && ColumnOf("Logo") == Some(LogoColumn)
  {
    assert Lower("UUID") == "uuid" && Lower("Logo") == "logo";
  }

  /** What the query compares the uuid with when the pasted text names a column. */
  lemma ColumnNameMatches(row: Company)
    ensures Matches(row, "uuid")
    ensures Matches(row, "full_name") <==> row.uuid == row.name
    ensures Matches(row, "logo") <==> row.logo.Some? && row.uuid == row.logo.value
    ensures Matches(row, "id") <==> row.id >= 0 && row.uuid == Digits(row.id)
  {
    ColumnNames();
  }

  /** A row whose every cell reads "1" satisfies the query of every column name. */
  const DECOY := Company(1, "1", "1", Some("1"))

  lemma DecoyMatches(text: string)
    requires ColumnOf(text).Some?
    ensures Matches(DECOY, text) && text != "1"
  {
    assert Digits(1) == "1";
    assert Lower("1") == "1";
  }

  lemma WrongRowFirst(uuid: string)
    requires !ClosesQuote(uuid) && (CutByNul(uuid) || ColumnOf(uuid).Some?)
    ensures exists t, r :: ValidCompanies(t) && HasUuid(t.rows, uuid) && RowIdAnswer(t.rows, uuid, r) && !RightRowId(t, uuid, r)
  {
    if CutByNul(uuid) {
      var t := Table([Company(1, uuid, "", None)], 1);
      assert t.rows[0].uuid == uuid;
      assert RowIdAnswer(t.rows, uuid, Err(SyntaxError));
      assert !RightRowId(t, uuid, Err(SyntaxError));
    } else {
      DecoyMatches(uuid);
      var t := Table([DECOY, Company(2, uuid, "", None)], 2);
      assert t.rows[1].uuid == uuid && t.rows[0] == DECOY;
      assert RowIdAnswer(t.rows, uuid, Ok(1));
      assert !RightRowId(t, uuid, Ok(1));
    }
  }

  lemma PlainTextIsFound(t: Table<Company>, uuid: string, r: Result<int, Failure>)
    requires ValidCompanies(t) && HasUuid(t.rows, uuid) && Plain(uuid) && RowIdAnswer(t.rows, uuid, r)
    ensures RightRowId(t, uuid, r)
  {
    var i :| 0 <= i < |t.rows| && t.rows[i].uuid == uuid;
    assert Matches(t.rows[i], uuid);
    RowIdAndUuidAreInverse(t, uuid, r.value);
  }

  /**
    For a uuid that stays inside its quotes, GetRowID answers rightly on every valid table
    holding it exactly when it has no NUL and is not, in any case, a column name.
  */
  lemma RowIdIsRightExactlyForPlainText(uuid: string)
    ensures !ClosesQuote(uuid) ==>
      ((forall t, r :: ValidCompanies(t) && HasUuid(t.rows, uuid) && RowIdAnswer(t.rows, uuid, r) ==> RightRowId(t, uuid, r))
       <==> Plain(uuid))
  {
    if Plain(uuid) {
      forall t, r | ValidCompanies(t) && HasUuid(t.rows, uuid) && RowIdAnswer(t.rows, uuid, r)
        ensures RightRowId(t, uuid, r)
      {
        PlainTextIsFound(t, uuid, r);
      }
    } else if !ClosesQuote(uuid) {
      InsideQuotes(uuid);
      WrongRowFirst(uuid);
    }
  }

  // ----- foreign keys -----

  /** Every price row names a company, the tables there or not. */
  ghost predicate FoundIntegral(db: Db) {
    db.prices.Some? && db.prices.value.rows != [] ==>
      && db.companies.Some?
      && forall k :: 0 <= k < |db.prices.value.rows| ==> HasId(db.companies.value.rows, db.prices.value.rows[k].company)
  }

  /** What the statement would leave if nothing were enforced. */
  function Unenforced(db: Db, s: Statement): Db {
    After(db.(enforced := false), s)
  }

  lemma RemovedStaysNamed(db: Db, id: int)
    requires FoundIntegral(db) && db.companies.Some? && HasId(db.companies.value.rows, id)
    ensures FoundIntegral(Unenforced(db, DeleteCompany(id))) <==> !Names(db.prices, id)
  {
    var rows := db.companies.value.rows;
    var left := WithoutCompany(rows, id);
    WithoutCompanyHas(rows, id);
    assert !HasId(left, id) by {
      forall i | 0 <= i < |left| ensures left[i].id != id { assert left[i] in left; }
    }
    forall other | HasId(rows, other) && other != id ensures HasId(left, other) {
      var i :| 0 <= i < |rows| && rows[i].id == other;
      assert rows[i] in left;
      var j :| 0 <= j < |left| && left[j] == rows[i];
    }
  }

  lemma UnremovedStaysNamed(db: Db, id: int)
    requires FoundIntegral(db) && db.companies.Some? && !HasId(db.companies.value.rows, id)
    ensures FoundIntegral(Unenforced(db, DeleteCompany(id)))
  {
    var rows := db.companies.value.rows;
    var left := WithoutCompany(rows, id);
    WithoutCompanyHas(rows, id);
    forall other | HasId(rows, other) ensures HasId(left, other) {
      var i :| 0 <= i < |rows| && rows[i].id == other;
      assert rows[i] in left;
      var j :| 0 <= j < |left| && left[j] == rows[i];
    }
  }

  lemma DroppedIsNamed(db: Db)
    requires FoundIntegral(db) && db.companies.Some?
    ensures References(db.prices, db.companies.value.rows) <==> !FoundIntegral(Unenforced(db, DropCompanies))
  {
    if db.prices.Some? && db.prices.value.rows != [] {
      assert HasId(db.companies.value.rows, db.prices.value.rows[0].company);
    }
  }

  lemma NewPriceIsNamed(db: Db, company: int, amount: real, time: int)
    requires FoundIntegral(db) && db.prices.Some?
    ensures FoundIntegral(Unenforced(db, InsertPrice(company, amount, time)))
       <==> db.companies.Some? && HasId(db.companies.value.rows, company)
  {
    var prices := db.prices.value.rows;
    var now := Unenforced(db, InsertPrice(company, amount, time)).prices.value.rows;
    assert now[|prices|].company == company;
    assert forall k :: 0 <= k < |prices| ==> now[k] == prices[k];
  }

  lemma FewerPricesStayNamed(db: Db, company: int)
    requires FoundIntegral(db)
    ensures FoundIntegral(Unenforced(db, DeletePricesOf(company)))
  {
    if db.prices.Some? {
      var rows := db.prices.value.rows;
      var left := WithoutPricesOf(rows, company);
      WithoutPricesOfHas(rows, company);
      forall k | 0 <= k < |left|
        ensures db.companies.Some? && HasId(db.companies.value.rows, left[k].company)
      {
        assert left[k] in left;
        var j :| 0 <= j < |rows| && rows[j] == left[k];
      }
    }
  }

  lemma MoreCompaniesStayNamed(db: Db, s: Statement)
    requires FoundIntegral(db) && (s.InsertCompany? || s.UpdateLogo?)
    ensures FoundIntegral(Unenforced(db, s))
  {
    if db.companies.Some? {
      var rows, now := db.companies.value.rows, Unenforced(db, s).companies.value.rows;
      assert |rows| <= |now| && forall i :: 0 <= i < |rows| ==> now[i].id == rows[i].id;
      forall id | HasId(rows, id) ensures HasId(now, id) {
        var i :| 0 <= i < |rows| && rows[i].id == id;
        assert now[i].id == id;
      }
    }
  }

  /**
    On an integral store, a statement is refused for a foreign key exactly when keys are enforced
    and it would otherwise go through and leave a price without its company.
  */
  lemma RefusesExactlyWhatBreaksKeys(db: Db, s: Statement)
    requires FoundIntegral(db)
    ensures Exec(db, s) == Err(ForeignKey) <==>
      db.enforced && Exec(db.(enforced := false), s).Ok? && !FoundIntegral(Unenforced(db, s))
  {
    match s {
      case DropCompanies => if db.companies.Some? { DroppedIsNamed(db); }
      case DeleteCompany(id) =>
        if db.companies.Some? {
          if HasId(db.companies.value.rows, id) { RemovedStaysNamed(db, id); } else { UnremovedStaysNamed(db, id); }
        }
      case InsertPrice(company, amount, time) => if db.prices.Some? { NewPriceIsNamed(db, company, amount, time); }
      case DeletePricesOf(company) => FewerPricesStayNamed(db, company);
      case InsertCompany(_, _, _, _) => MoreCompaniesStayNamed(db, s);
      case UpdateLogo(_, _) => MoreCompaniesStayNamed(db, s);
      case _ =>
    }
  }

  lemma NotRefusedIsTheSame(db: Db, s: Statement)
    requires Exec(db, s) != Err(ForeignKey)
    ensures After(db, s) == Unenforced(db, s).(enforced := db.enforced)
  {
  }

  /** With keys enforced, no run of statements whatever breaks integrity. */
  lemma {:induction false} EnforcementKeepsIntegrity(db: Db, run: seq<Statement>)
    requires db.enforced && FoundIntegral(db)
    ensures AfterAll(db, run).enforced && FoundIntegral(AfterAll(db, run))
    decreases |run|
  {
    if run == [] {
    } else {
      var n := |run| - 1;
      EnforcementKeepsIntegrity(db, run[..n]);
      var mid := AfterAll(db, run[..n]);
      RefusesExactlyWhatBreaksKeys(mid, run[n]);
      if Exec(mid, run[n]) != Err(ForeignKey) { NotRefusedIsTheSame(mid, run[n]); }
    }
  }
}
