/**
  The connection and the table classes (Daemon/db/itable.h, itable.cpp, table_companies.cpp,
  table_prices.cpp). `depth` counts the caller's holds on the one recursive mutex; every
  method gives it back as it found it, on normal and on throwing exits.
*/
module Tables {
  import opened Common
  import opened Sql
  import opened Companies

  lemma {:induction false} ExecAllStops(db: Db, cmd: seq<Statement>, i: nat)
    requires i <= |cmd| && ExecAll(db, cmd[..i]).Err?
    ensures ExecAll(db, cmd) == ExecAll(db, cmd[..i])
    decreases |cmd|
  {
    if i > 0 && Exec(db, cmd[0]).Ok? {
      assert cmd[..i][1..] == cmd[1..][..i - 1];
      ExecAllStops(Exec(db, cmd[0]).value, cmd[1..], i - 1);
    }
  }

  class Connection {
    var content: Db
    var depth: nat
    /** The statements of every committed transaction, in order. */
    ghost var commits: seq<Statement>

    constructor (content: Db)
      ensures this.content == content && depth == 0 && commits == []
    {
      this.content, depth, commits := content, 0, [];
    }

    method Lock()
      modifies this`depth
      ensures depth == old(depth) + 1
    {
      depth := depth + 1;
    }

    method Unlock()
      requires depth > 0
      modifies this`depth
      ensures depth == old(depth) - 1
    {
      depth := depth - 1;
    }

    /** One step of a statement; only a holder of the mutex may ask for it. */
    method ExecStatement(s: Statement) returns (r: Result<(), Failure>)
      requires depth > 0
      modifies this`content
      ensures content == After(old(content), s)
      ensures r == match Exec(old(content), s) { case Ok(_) => Ok(()) case Err(e) => Err(e) }
    {
      match Exec(content, s)
      case Ok(next) => content := next; r := Ok(());
      case Err(e) => r := Err(e);
    }

    /**
      Begin, execute, commit under the mutex; a throwing statement unwinds through the
      transaction's rollback. The command either happens whole or not at all.
    */
    method RunTransaction(cmd: seq<Statement>) returns (r: Result<(), Failure>)
      modifies this
      ensures depth == old(depth)
      ensures match ExecAll(old(content), cmd)
              case Ok(next) => r == Ok(()) && content == next && commits == old(commits) + cmd
              case Err(e) => r == Err(e) && content == old(content) && commits == old(commits)
    {
      Lock();
      var saved := content;
      r := Ok(());
      var i := 0;
      while i < |cmd|
        invariant 0 <= i <= |cmd|
        invariant depth == old(depth) + 1
        invariant r == Ok(()) && commits == old(commits)
        invariant ExecAll(old(content), cmd[..i]) == Ok(content)
      {
        assert cmd[..i + 1] == cmd[..i] + [cmd[i]];
        ExecAllAppend(old(content), cmd[..i], cmd[i]);
        r := ExecStatement(cmd[i]);
        if r.Err? {
          ExecAllStops(old(content), cmd, i + 1);
          content := saved;
          Unlock();
          return;
        }
        i := i + 1;
      }
      assert cmd[..i] == cmd;
      commits := commits + cmd;
      Unlock();
    }
  }

  /** A stepped SELECT: the cells of its single column, and how many have been stepped over. */
  class Cursor {
    const cells: seq<Option<string>>
    var pos: nat

    constructor (cells: seq<Option<string>>)
      ensures this.cells == cells && pos == 0
    {
      this.cells, pos := cells, 0;
    }

    method ExecuteStep() returns (found: bool)
      requires pos <= |cells|
      modifies this
      ensures found <==> old(pos) < |cells|
      ensures pos == if found then old(pos) + 1 else old(pos)
    {
      found := pos < |cells|;
      if found { pos := pos + 1; }
    }
  }

  function Cells(rows: seq<Company>, cell: Company -> Option<string>): (out: seq<Option<string>>)
    ensures |out| == |rows|
    ensures forall i :: 0 <= i < |rows| ==> out[i] == cell(rows[i])
  {
    seq(|rows|, i requires 0 <= i < |rows| => cell(rows[i]))
  }

  class CompanyTable {
    const db: Connection

    constructor (db: Connection)
      ensures this.db == db
    {
      this.db := db;
    }

    method Add(uuid: string, name: string, logo: string, gap: nat) returns (r: Result<(), Failure>)
      modifies db
      ensures db.depth == old(db.depth)
      ensures db.content == After(old(db.content), InsertCompany(uuid, name, logo, gap))
      ensures r.Ok? <==> old(db.content).companies.Some?
    {
      db.Lock();
      assert [InsertCompany(uuid, name, logo, gap)][1..] == [];
      r := db.RunTransaction([InsertCompany(uuid, name, logo, gap)]);
      db.Unlock();
    }

    /** The id query pastes the uuid between double quotes; it throws when no row matches or a NUL cuts it. */
    method GetRowID(uuid: string) returns (r: Result<int, Failure>)
      modifies db
      ensures db.depth == old(db.depth) && db.content == old(db.content)
      ensures match db.content.companies
              case None => r == Err(NoSuchTable)
              case Some(t) => RowIdAnswer(t.rows, uuid, r)
    {
      db.Lock();
      if db.content.companies.None? {
        r := Err(NoSuchTable);
      } else if ClosesQuote(uuid) {
        r := *;
      } else if CutByNul(uuid) {
        r := Err(SyntaxError);
      } else {
        var rows := db.content.companies.value.rows;
        if i :| 0 <= i < |rows| && Matches(rows[i], uuid) {
          r := Ok(rows[i].id);
        } else {
          r := Err(NoRow);
        }
      }
      db.Unlock();
    }

    method CreateGetFieldQuery(cell: Company -> Option<string>, id: int) returns (r: Result<Cursor, Failure>)
      modifies db
      ensures db.depth == old(db.depth) && db.content == old(db.content)
      ensures match db.content.companies
              case None => r == Err(NoSuchTable)
              case Some(t) =>
                (r.Ok? && fresh(r.value) && r.value.pos == 0 && r.value.cells == Cells(Selected(t.rows, id), cell))
    {
      db.Lock();
      if db.content.companies.None? {
        r := Err(NoSuchTable);
      } else {
        var query := new Cursor(Cells(Selected(db.content.companies.value.rows, id), cell));
        r := Ok(query);
      }
      db.Unlock();
    }

    /** Exactly one row or an exception; by id, the more-than-one exception cannot happen. */
    method GetFieldValue(cell: Company -> Option<string>, id: int) returns (r: Result<string, Failure>)
      requires Valid(db.content)
      modifies db
      ensures db.depth == old(db.depth) && db.content == old(db.content)
      ensures match db.content.companies
              case None => r == Err(NoSuchTable)
              case Some(t) => FieldAnswer(t.rows, cell, id, r)
    {
      db.Lock();
      var query := CreateGetFieldQuery(cell, id);
      if query.Err? {
        db.Unlock();
        return Err(query.error);
      }
      SelectedAnswers(db.content.companies.value, cell, id);
      var cursor := query.value;
      var found := cursor.ExecuteStep();
      if !found {
        db.Unlock();
        return Err(NoRow);
      }
      if cursor.cells[cursor.pos - 1].None? {
        db.Unlock();
        return Err(NullValue);
      }
      var value := cursor.cells[cursor.pos - 1].value;
      found := cursor.ExecuteStep();
      r := if found then Err(ManyRows) else Ok(value);
      db.Unlock();
    }

    /** Every cell of one column in row order; a NULL reads as the empty string. */
    method GetFieldValueList(cell: Company -> Option<string>) returns (r: Result<seq<string>, Failure>)
      modifies db
      ensures db.depth == old(db.depth) && db.content == old(db.content)
      ensures match db.content.companies
              case None => r == Err(NoSuchTable)
              case Some(t) => (
                && r.Ok? && |r.value| == |t.rows|
                && forall i :: 0 <= i < |t.rows| ==>
                     r.value[i] == match cell(t.rows[i]) { case Some(text) => text case None => "" })
    {
      db.Lock();
      if db.content.companies.None? {
        db.Unlock();
        return Err(NoSuchTable);
      }
      var rows := db.content.companies.value.rows;
      var cursor := new Cursor(Cells(rows, cell));
      var values: seq<string> := [];
      var found := cursor.ExecuteStep();
      while found
        invariant db.depth == old(db.depth) + 1 && db.content == old(db.content)
        invariant cursor.pos == |values| + (if found then 1 else 0) <= |rows|
        invariant !found ==> cursor.pos == |rows|
        invariant forall i :: 0 <= i < |values| ==>
          values[i] == match cell(rows[i]) { case Some(text) => text case None => "" }
        decreases |rows| - cursor.pos, found
      {
        var column := cursor.cells[cursor.pos - 1];
        values := values + [if column.Some? then column.value else ""];
        found := cursor.ExecuteStep();
      }
      r := Ok(values);
      db.Unlock();
    }

    method SetLogoByID(id: int, link: string) returns (r: Result<(), Failure>)
      modifies db
      ensures db.depth == old(db.depth)
      ensures db.content == After(old(db.content), UpdateLogo(id, link))
      ensures r.Ok? <==> Exec(old(db.content), UpdateLogo(id, link)).Ok?
    {
      db.Lock();
      assert [UpdateLogo(id, link)][1..] == [];
      r := db.RunTransaction([UpdateLogo(id, link)]);
      db.Unlock();
    }

    method RemoveByRowID(id: int) returns (r: Result<(), Failure>)
      modifies db
      ensures db.depth == old(db.depth)
      ensures db.content == After(old(db.content), DeleteCompany(id))
      ensures r.Ok? <==> Exec(old(db.content), DeleteCompany(id)).Ok?
    {
      db.Lock();
      assert [DeleteCompany(id)][1..] == [];
      r := db.RunTransaction([DeleteCompany(id)]);
      db.Unlock();
    }
  }

  class PriceTable {
    const db: Connection

    constructor (db: Connection)
      ensures this.db == db
    {
      this.db := db;
    }

    method Add(company: int, amount: real, time: int) returns (r: Result<(), Failure>)
      modifies db
      ensures db.depth == old(db.depth)
      ensures db.content == After(old(db.content), InsertPrice(company, amount, time))
      ensures r.Ok? <==> Exec(old(db.content), InsertPrice(company, amount, time)).Ok?
    {
      assert [InsertPrice(company, amount, time)][1..] == [];
      r := db.RunTransaction([InsertPrice(company, amount, time)]);
    }

    method RemoveAllByCompanyRowID(company: int) returns (r: Result<(), Failure>)
      modifies db
      ensures db.depth == old(db.depth)
      ensures db.content == After(old(db.content), DeletePricesOf(company))
      ensures r.Ok? <==> Exec(old(db.content), DeletePricesOf(company)).Ok?
    {
      db.Lock();
      assert [DeletePricesOf(company)][1..] == [];
      r := db.RunTransaction([DeletePricesOf(company)]);
      db.Unlock();
    }
  }
}
