/**
  What each SQL statement issued by the daemon denotes (Daemon/db): three tables that may or
  may not exist, two of them with an AUTOINCREMENT counter, and the connection's
  foreign-key switch. SQL text is not modelled, except for the one place where it matters:
  a value pasted between double quotes (`Matches`).
*/
module Sql {
  import opened Common

  datatype Company = Company(id: int, uuid: string, name: string, logo: Option<string>)
  datatype Price = Price(id: int, company: int, amount: real, time: int)

  /** `last` is the highest id handed out since the table was created (sqlite_sequence). */
  datatype Table<Row> = Table(rows: seq<Row>, last: nat)

  /** A missing table is `None`; the version table is the list of its version cells. */
  datatype Db = Db(version: Option<seq<int>>,
                   companies: Option<Table<Company>>,
                   prices: Option<Table<Price>>,
                   enforced: bool)

  datatype Failure = NoSuchTable | ForeignKey | SyntaxError | NoRow | ManyRows | NullValue

  datatype Statement =
    | CreateVersion | CreateCompanies | CreatePrices | PragmaForeignKeysOn
    | DropVersion | DropCompanies | DropPrices
    | InsertVersion(version: int) | UpdateVersion(newVersion: int) | Malformed
    | InsertCompany(uuid: string, name: string, logo: string, gap: nat)
    | UpdateLogo(id: int, link: string)
    | DeleteCompany(id: int)
    | InsertPrice(company: int, amount: real, time: int)
    | DeletePricesOf(company: int)

  predicate HasUuid(rows: seq<Company>, uuid: string) {
    exists i :: 0 <= i < |rows| && rows[i].uuid == uuid
  }

  predicate HasId(rows: seq<Company>, id: int) {
    exists i :: 0 <= i < |rows| && rows[i].id == id
  }

  /** Some price row names an id that is in the companies table. */
  predicate References(prices: Option<Table<Price>>, rows: seq<Company>) {
    prices.Some? && exists k :: 0 <= k < |prices.value.rows| && HasId(rows, prices.value.rows[k].company)
  }

  /** Some price row names this company. */
  predicate Names(prices: Option<Table<Price>>, id: int) {
    prices.Some? && exists k :: 0 <= k < |prices.value.rows| && prices.value.rows[k].company == id
  }

  function WithLogo(rows: seq<Company>, id: int, link: string): (out: seq<Company>)
    ensures |out| == |rows|
  {
    seq(|rows|, i requires 0 <= i < |rows| =>
      if rows[i].id == id then rows[i].(logo := Some(link)) else rows[i])
  }

  function WithoutCompany(rows: seq<Company>, id: int): seq<Company> {
    if rows == [] then [] else
    var rest := WithoutCompany(rows[..|rows| - 1], id);
    if rows[|rows| - 1].id == id then rest else rest + [rows[|rows| - 1]]
  }

  function WithoutPricesOf(rows: seq<Price>, company: int): seq<Price> {
    if rows == [] then [] else
    var rest := WithoutPricesOf(rows[..|rows| - 1], company);
    if rows[|rows| - 1].company == company then rest else rest + [rows[|rows| - 1]]
  }

  function Fresh<Row>(t: Option<Table<Row>>): Option<Table<Row>> {
    if t.Some? then t else Some(Table([], 0))
  }

  /**
    INSERT OR IGNORE on the UNIQUE uuid column. A new row takes the next id; an ignored one
    leaves the rows alone but may use up `gap` ids.
  */
  function InsertOrIgnore(t: Table<Company>, uuid: string, name: string, logo: string, gap: nat): Table<Company> {
    if HasUuid(t.rows, uuid) then t.(last := t.last + gap)
    else Table(t.rows + [Company(t.last + 1, uuid, name, Some(logo))], t.last + 1)
  }

  /**
    One statement inside an open transaction. SQLite documents PRAGMA foreign_keys as a no-op
    there, so `enforced` keeps whatever value the connection was opened with.
  */
  function Exec(db: Db, s: Statement): Result<Db, Failure> {
    match s
    case CreateVersion => Ok(db.(version := if db.version.Some? then db.version else Some([])))
    case CreateCompanies => Ok(db.(companies := Fresh(db.companies)))
    case CreatePrices => Ok(db.(prices := Fresh(db.prices)))
    case PragmaForeignKeysOn => Ok(db)
    case DropVersion => Ok(db.(version := None))
    case DropCompanies =>
      if db.enforced && db.companies.Some? && References(db.prices, db.companies.value.rows)
      then Err(ForeignKey) else Ok(db.(companies := None))
    case DropPrices => Ok(db.(prices := None))
    case InsertVersion(v) =>
      if db.version.None? then Err(NoSuchTable) else Ok(db.(version := Some(db.version.value + [v])))
    case UpdateVersion(v) =>
      if db.version.None? then Err(NoSuchTable)
      else Ok(db.(version := Some(seq(|db.version.value|, _ => v))))
    case Malformed => Err(SyntaxError)
    case InsertCompany(uuid, name, logo, gap) =>
      if db.companies.None? then Err(NoSuchTable)
      else Ok(db.(companies := Some(InsertOrIgnore(db.companies.value, uuid, name, logo, gap))))
    case UpdateLogo(id, link) =>
      if db.companies.None? then Err(NoSuchTable)
      else Ok(db.(companies := Some(db.companies.value.(rows := WithLogo(db.companies.value.rows, id, link)))))
    case DeleteCompany(id) =>
      if db.companies.None? then Err(NoSuchTable)
      else if db.enforced && HasId(db.companies.value.rows, id) && Names(db.prices, id) then Err(ForeignKey)
      else Ok(db.(companies := Some(db.companies.value.(rows := WithoutCompany(db.companies.value.rows, id)))))
    case InsertPrice(company, amount, time) =>
      if db.prices.None? then Err(NoSuchTable)
      else if db.enforced && !(db.companies.Some? && HasId(db.companies.value.rows, company)) then Err(ForeignKey)
      else
        var id := db.prices.value.last + 1;
        Ok(db.(prices := Some(Table(db.prices.value.rows + [Price(id, company, amount, time)], id))))
    case DeletePricesOf(company) =>
      if db.prices.None? then Err(NoSuchTable)
      else Ok(db.(prices := Some(db.prices.value.(rows := WithoutPricesOf(db.prices.value.rows, company)))))
  }

  /** Several statements in one command string: the first failure stops it. */
  function ExecAll(db: Db, cmd: seq<Statement>): Result<Db, Failure>
    decreases |cmd|
  {
    if cmd == [] then Ok(db) else
    match Exec(db, cmd[0])
    case Ok(next) => ExecAll(next, cmd[1..])
    case Err(e) => Err(e)
  }

  lemma {:induction false} ExecAllAppend(db: Db, cmd: seq<Statement>, s: Statement)
    ensures ExecAll(db, cmd + [s]) ==
            match ExecAll(db, cmd) { case Ok(mid) => Exec(mid, s) case Err(e) => Err(e) }
    decreases |cmd|
  {
    if cmd == [] {
      assert cmd + [s] == [s];
      assert [s][1..] == [];
    } else {
      assert (cmd + [s])[1..] == cmd[1..] + [s];
      match Exec(db, cmd[0]) {
        case Ok(next) => ExecAllAppend(next, cmd[1..], s);
        case Err(_) =>
      }
    }
  }

  /** The transaction of a single command: all of it, or nothing. */
  function After(db: Db, s: Statement): Db {
    match Exec(db, s) case Ok(next) => next case Err(_) => db
  }

  function AfterAll(db: Db, run: seq<Statement>): Db {
    if run == [] then db else After(AfterAll(db, run[..|run| - 1]), run[|run| - 1])
  }

  lemma AfterAllStep(db: Db, run: seq<Statement>, k: nat)
    requires k < |run|
    ensures AfterAll(db, run[..k + 1]) == After(AfterAll(db, run[..k]), run[k])
  {
    assert run[..k + 1][..k] == run[..k];
  }

  lemma {:induction false} AfterAllConcat(db: Db, first: seq<Statement>, second: seq<Statement>)
    ensures AfterAll(db, first + second) == AfterAll(AfterAll(db, first), second)
    decreases |second|
  {
    if second == [] {
      assert first + second == first;
    } else {
      var n := |second| - 1;
      assert (first + second)[..|first| + n] == first + second[..n];
      AfterAllConcat(db, first, second[..n]);
    }
  }

  // ----- text pasted between double quotes -----

  datatype Column = IdColumn | UuidColumn | NameColumn | LogoColumn

  function Lower(s: string): (r: string)
    ensures |r| == |s|
  {
    seq(|s|, i requires 0 <= i < |s| => if 'A' <= s[i] <= 'Z' then (s[i] as int + 32) as char else s[i])
  }

  /** A double-quoted word is a column if it names one in any case, and a string only otherwise. */
  function ColumnOf(text: string): Option<Column> {
    var word := Lower(text);
    if word == "uuid" then Some(UuidColumn)
    else if word == "full_name" then Some(NameColumn)
    else if word == "logo" then Some(LogoColumn)
    else if word == "id" || word == "rowid" || word == "oid" || word == "_rowid_" then Some(IdColumn)
    else None
  }

  /** The row satisfies `uuid = "text"`. */
  predicate Matches(row: Company, text: string) {
    match ColumnOf(text)
    case None => row.uuid == text
    case Some(UuidColumn) => true
    case Some(NameColumn) => row.uuid == row.name
    case Some(LogoColumn) => row.logo == Some(row.uuid)
    case Some(IdColumn) => row.id >= 0 && row.uuid == Digits(row.id)
  }

  /** The text itself ends the quoted word, and what follows is read as SQL. */
  predicate ClosesQuote(text: string) {
    IndexOf(text, '\"') < IndexOf(text, '\0')
  }

  /** SQLite reads a query up to its first NUL: here, an unfinished quote. */
  predicate CutByNul(text: string) {
    IndexOf(text, '\0') < IndexOf(text, '\"')
  }

  predicate Plain(text: string) {
    '\"' !in text && '\0' !in text && ColumnOf(text).None?
  }

  /** A text that stays inside its quotes is plain unless a NUL cuts it or it names a column. */
  lemma InsideQuotes(text: string)
    requires !ClosesQuote(text)
    ensures Plain(text) <==> !CutByNul(text) && ColumnOf(text).None?
  {
    if '\"' in text { InSomewhere(text, '\"'); }
    if '\0' in text { InSomewhere(text, '\0'); }
  }

  /**
    The answers `SELECT id ... WHERE uuid = "text"` can give: the id of some matching row, or
    an exception when there is none or the text cuts the query short. Nothing is said of a text
    that closes the quote itself.
  */
  predicate RowIdAnswer(rows: seq<Company>, text: string, r: Result<int, Failure>) {
    if ClosesQuote(text) then true
    else if CutByNul(text) then r == Err(SyntaxError)
    else
      match r
      case Ok(id) => exists i :: 0 <= i < |rows| && Matches(rows[i], text) && id == rows[i].id
      case Err(e) => e == NoRow && forall i :: 0 <= i < |rows| ==> !Matches(rows[i], text)
  }
}
